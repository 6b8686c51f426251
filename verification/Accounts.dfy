/** Accounts over the block allocator (internal/account/manager.go): creation, resizing,
    adding and removing blocks, and deletion. Whether a call to the account store succeeds, and
    which queries the allocator's database answers, are parameters; a failed call changes
    nothing. */
module Accounts {
  import opened Text
  import opened IpamRecords
  import opened IpamStacks
  import opened IpamDatabase
  import opened Ipam

  const DEFAULT_MAX_PEERS := 30
  const USABLE := 29

  /** `Account`: a network is the number of its first address, a server IP is a number. */
  datatype Account = Account(networks: seq<nat>, serverIPs: seq<nat>, blockCount: int, maxPeers: int)

  /** `blocksForPeers`. */
  function BlocksForPeers(maxPeers: int): (r: nat)
    ensures r >= 1
    ensures USABLE * r >= maxPeers
    ensures r > 1 ==> USABLE * (r - 1) < maxPeers
  {
    if maxPeers <= 0 then 1 else (maxPeers + USABLE - 1) / USABLE
  }

  /** Blocks cover a cap exactly if there are as many as are asked for. */
  lemma CoverExactly(n: nat, maxPeers: int)
    requires n >= 1
    ensures USABLE * n >= maxPeers <==> BlocksForPeers(maxPeers) <= n
  {
  }

  function PeerLimit(limit: int): int {
    if limit <= 0 then DEFAULT_MAX_PEERS else limit
  }

  /** How many blocks the account lacks for a cap. */
  function Shortfall(a: Account, cap: int): int {
    BlocksForPeers(cap) - a.blockCount
  }

  // ---- What a stored account must satisfy ----

  ghost predicate Within(s: seq<nat>, t: seq<nat>) {
    forall b :: b in s ==> b in t
  }

  ghost predicate AllAre27(s: seq<nat>) {
    forall b :: b in s ==> Aligned(b)
  }

  ghost predicate AccountOk(a: Account) {
    && |a.networks| >= 1 && NoDup(a.networks) && AllAre27(a.networks)
    && a.blockCount == |a.networks|
    && Gateways(a.networks, a.serverIPs)
  }

  ghost predicate Accounted(store: map<string, Account>, tenants: Tenants) {
    && store.Keys == tenants.Keys
    && forall id :: id in store ==> AccountOk(store[id]) && Within(store[id].networks, tenants[id].networks)
  }

  /** Whatever failed on the way, and with or without a database: no two stored accounts share a
      block, and no stored block can be given out. It is on no stack as long as the stacks hold the
      free blocks. */
  lemma StoredBlocksDisjoint(blocks: Blocks, free: Queues, tenants: Tenants, store: map<string, Account>,
                             x: string, y: string, b: nat)
    requires Records(blocks, tenants, "", []) && Accounted(store, tenants)
    requires x in store && b in store[x].networks
    ensures y in store && b in store[y].networks ==> x == y
    ensures Aligned(b) && HeldBy(blocks, b, x)
    ensures Stacks(blocks, free) ==> forall p :: p in free ==> b !in free[p]
  {
    assert b in tenants[x].networks && HeldBy(blocks, b, x);
    if y in store && b in store[y].networks {
      TenantsAreDisjoint(blocks, tenants, x, y, b);
    }
    if Stacks(blocks, free) {
      forall p | p in free
        ensures b !in free[p]
      {
        HeldIsNotFree(blocks, free, x, p, b);
      }
    }
  }

  // ---- Taking over the blocks of an allocation ----

  /** The elements of `s[..n]` that are not in `have`. */
  function Missing(s: seq<nat>, have: seq<nat>, n: nat): seq<nat>
    requires n <= |s|
  {
    if n == 0 then []
    else if s[n - 1] in have then Missing(s, have, n - 1)
    else Missing(s, have, n - 1) + [s[n - 1]]
  }

  lemma {:induction false} MissingMembers(s: seq<nat>, have: seq<nat>, n: nat)
    requires n <= |s|
    ensures forall b :: b in Missing(s, have, n) <==> b in s[..n] && b !in have
  {
    if n == 0 {
    } else {
      MissingMembers(s, have, n - 1);
      assert s[..n] == s[..n - 1] + [s[n - 1]];
    }
  }

  lemma {:induction false} MissingDistinct(s: seq<nat>, have: seq<nat>, n: nat)
    requires n <= |s| && NoDup(s)
    ensures NoDup(Missing(s, have, n))
  {
    if n == 0 {
    } else {
      MissingDistinct(s, have, n - 1);
      MissingMembers(s, have, n - 1);
      assert s[n - 1] !in s[..n - 1];
    }
  }

  /** What is missing of a grown list is at least what it grew by. */
  lemma {:induction false} MissingCount(s: seq<nat>, have: seq<nat>, n: nat, m: nat)
    requires m <= n <= |s|
    requires forall i :: m <= i < n ==> s[i] !in have
    ensures |Missing(s, have, n)| >= n - m
    decreases n
  {
    if m < n {
      MissingCount(s, have, n - 1, m);
    }
  }

  /** The loop of `SetMaxPeers` and `AddBlockToAccount` over an allocation: the blocks the
      account does not have yet, with their server IPs. */
  method NewBlocks(a: Account, allocation: Allocation) returns (networks: seq<nat>, serverIPs: seq<nat>)
    requires Gateways(allocation.networks, allocation.serverIPs)
    ensures networks == Missing(allocation.networks, a.networks, |allocation.networks|)
    ensures Gateways(networks, serverIPs)
  {
    networks, serverIPs := [], [];
    for i := 0 to |allocation.networks|
      invariant networks == Missing(allocation.networks, a.networks, i)
      invariant Gateways(networks, serverIPs)
    {
      var block := allocation.networks[i];
      if block !in a.networks {
        networks := networks + [block];
        if i < |allocation.serverIPs| {
          serverIPs := serverIPs + [allocation.serverIPs[i]];
        }
      }
    }
  }

  /** The account after it takes over all blocks of an allocation. */
  function Extended(a: Account, networks: seq<nat>, serverIPs: seq<nat>): Account {
    a.(networks := a.networks + networks, serverIPs := a.serverIPs + serverIPs, blockCount := |a.networks + networks|)
  }

  /** After an expansion by `n` the account holds exactly what its tenant holds, at least `n`
      more blocks than before, the earlier ones first. */
  lemma {:induction false} ExtendedOk(a: Account, before: seq<nat>, after: seq<nat>, n: nat, networks: seq<nat>, serverIPs: seq<nat>)
    requires AccountOk(a) && Within(a.networks, before)
    requires Grown(before, after, n) && NoDup(after) && AllAre27(after)
    requires networks == Missing(after, a.networks, |after|) && Gateways(networks, serverIPs)
    ensures var e := Extended(a, networks, serverIPs);
      && AccountOk(e) && |e.networks| >= |a.networks| + n && a.networks <= e.networks
      && Within(e.networks, after) && Within(after, e.networks)
  {
    assert after[..|after|] == after;
    MissingMembers(after, a.networks, |after|);
    MissingDistinct(after, a.networks, |after|);
    NoDupConcat(a.networks, networks);
    GrownBeyond(a.networks, before, after, n);
    MissingCount(after, a.networks, |after|, |before|);
    GatewaysConcat(a.networks, a.serverIPs, networks, serverIPs);
  }

  lemma GatewaysConcat(networks: seq<nat>, serverIPs: seq<nat>, more: seq<nat>, moreIPs: seq<nat>)
    requires Gateways(networks, serverIPs) && Gateways(more, moreIPs)
    ensures Gateways(networks + more, serverIPs + moreIPs)
  {
  }

  /** Blocks within `before` are within what it has grown to, and not among those added. */
  lemma GrownBeyond(s: seq<nat>, before: seq<nat>, after: seq<nat>, n: nat)
    requires Within(s, before) && Grown(before, after, n) && NoDup(after)
    ensures Within(s, after)
    ensures forall i :: |before| <= i < |after| ==> after[i] !in s
  {
    forall b | b in s
      ensures b in after[..|before|]
    {
      assert b in before;
    }
    forall i | |before| <= i < |after|
      ensures after[i] !in after[..|before|]
    {
    }
  }

  /** The text of address `n`. */
  function AddressText(n: nat): string {
    if n < ADDRESSES then Dotted(FromNumber(n)) else ""
  }

  /** The text of a network. */
  function Cidr(b: nat): string {
    AddressText(b) + "/27"
  }

  lemma SuffixCancels(s: string, t: string, suffix: string)
    requires s + suffix == t + suffix
    ensures s == t
  {
    assert |s| == |t|;
    assert s == (s + suffix)[..|s|] && t == (t + suffix)[..|t|];
  }

  lemma DottedInjective(x: IPv4, y: IPv4)
    requires Dotted(x) == Dotted(y)
    ensures x == y
  {
    DottedReadsBack(x);
    DottedReadsBack(y);
  }

  lemma FromNumberInjective(m: nat, n: nat)
    requires m < ADDRESSES && n < ADDRESSES && FromNumber(m) == FromNumber(n)
    ensures m == n
  {
    assert Number(FromNumber(m)) == Number(FromNumber(n));
  }

  lemma AddressTextInjective(m: nat, n: nat)
    requires m < ADDRESSES && n < ADDRESSES && AddressText(m) == AddressText(n)
    ensures m == n
  {
    DottedInjective(FromNumber(m), FromNumber(n));
    FromNumberInjective(m, n);
  }

  /** Networks are told apart by their text. */
  lemma CidrInjective(b: nat, c: nat)
    requires b < ADDRESSES && c < ADDRESSES && Cidr(b) == Cidr(c)
    ensures b == c
  {
    SuffixCancels(AddressText(b), AddressText(c), "/27");
    AddressTextInjective(b, c);
  }

  function Without<T>(s: seq<T>, i: nat): seq<T>
    requires i < |s|
  {
    s[..i] + s[i + 1..]
  }

  /** The account without its block `i`. */
  function Shrunk(a: Account, i: nat): Account
    requires i < |a.networks| && i < |a.serverIPs|
  {
    a.(networks := Without(a.networks, i), serverIPs := Without(a.serverIPs, i), blockCount := |a.networks| - 1)
  }

  lemma ShrunkOk(a: Account, i: nat)
    requires AccountOk(a) && |a.networks| > 1 && i < |a.networks|
    ensures AccountOk(Shrunk(a, i)) && Within(Shrunk(a, i).networks, a.networks)
    ensures a.networks[i] !in Shrunk(a, i).networks
  {
  }

  class AccountManager {
    var store: map<string, Account>
    const ipam: GlobalIpam

    ghost predicate Valid()
      reads this, ipam
    {
      ipam.Valid() && Accounted(store, ipam.tenants)
    }

    constructor (ipam: GlobalIpam, store: map<string, Account>)
      ensures this.ipam == ipam && this.store == store
      ensures ipam.Valid() && ipam.tenants == map[] && store == map[] ==> Valid()
    {
      this.ipam := ipam;
      this.store := store;
    }

    /** `restoreIPAM`, over the accounts in any order, on an allocator that knows all their blocks.
        Every account's tenant gets its blocks back, whatever the allocator recorded of them; the
        manager is valid exactly if every other block is free and, with a database, every block of
        an account is held for it in the table. */
    method RestoreIPAM()
      requires Restorable(store, ipam.blocks) && ipam.tenants == map[] && ipam.given == {} && ipam.surplus == 0
      requires ipam.allocatedBlocks == |Taken(ipam.blocks)| && AllAligned(ipam.blocks) && Blank(ipam.blocks)
      requires Kept(ipam.persistent, ipam.tidy, ipam.blocks, ipam.freeBlocks, ipam.given, ipam.rows)
      modifies ipam
      ensures ipam.rows == old(ipam.rows) && ipam.tenants.Keys == store.Keys
      ensures forall id :: id in store ==> ipam.tenants[id] == Allocation(store[id].networks, store[id].serverIPs)
      ensures ipam.surplus == |Recounted(old(ipam.blocks), store, store.Keys)|
      ensures Restored(old(ipam.blocks), ipam.blocks, store, store.Keys) && ipam.given == {}
      ensures Kept(ipam.persistent, ipam.tidy, ipam.blocks, ipam.freeBlocks, ipam.given, ipam.rows)
      ensures Valid() <==> NoOrphans(old(ipam.blocks), store) && (ipam.persistent ==> AllBacked(store, ipam.rows))
    {
      RestoreAll();
      RestoredManager(ipam.persistent, ipam.tidy, old(ipam.blocks), ipam.blocks, ipam.freeBlocks, ipam.given, ipam.tenants,
                      store, ipam.rows, ipam.allocatedBlocks - ipam.surplus);
    }

    /** The loop over the accounts. */
    method RestoreAll()
      requires Restorable(store, ipam.blocks) && ipam.tenants == map[] && ipam.given == {} && ipam.surplus == 0
      requires ipam.allocatedBlocks == |Taken(ipam.blocks)|
      requires Kept(ipam.persistent, ipam.tidy, ipam.blocks, ipam.freeBlocks, ipam.given, ipam.rows)
      modifies ipam`blocks, ipam`freeBlocks, ipam`allocatedBlocks, ipam`tenants, ipam`surplus
      ensures Restored(old(ipam.blocks), ipam.blocks, store, store.Keys) && HasBack(ipam.tenants, store, store.Keys)
      ensures ipam.surplus == |Recounted(old(ipam.blocks), store, store.Keys)|
      ensures ipam.allocatedBlocks - ipam.surplus == |Taken(ipam.blocks)|
      ensures Kept(ipam.persistent, ipam.tidy, ipam.blocks, ipam.freeBlocks, ipam.given, ipam.rows)
    {
      var left := store.Keys;
      RestoredNone(ipam.blocks, store);
      while left != {}
        invariant left <= store.Keys && Kept(ipam.persistent, ipam.tidy, ipam.blocks, ipam.freeBlocks, ipam.given, ipam.rows)
        invariant ipam.allocatedBlocks - ipam.surplus == |Taken(ipam.blocks)|
        invariant Restored(old(ipam.blocks), ipam.blocks, store, store.Keys - left)
        invariant HasBack(ipam.tenants, store, store.Keys - left)
        invariant ipam.surplus == |Recounted(old(ipam.blocks), store, store.Keys - left)|
        decreases left
      {
        var id :| id in left;
        RestoreAccount(id, store.Keys - left, store.Keys - (left - {id}), old(ipam.blocks));
        left := left - {id};
      }
      assert store.Keys - {} == store.Keys;
    }

    /** One account of the loop. */
    method RestoreAccount(id: string, ghost done: set<string>, ghost done': set<string>, ghost first: Blocks)
      requires Restorable(store, first) && id in store && id !in done && done <= store.Keys && ipam.given == {}
      requires done' == done + {id}
      requires ipam.allocatedBlocks - ipam.surplus == |Taken(ipam.blocks)|
      requires Kept(ipam.persistent, ipam.tidy, ipam.blocks, ipam.freeBlocks, ipam.given, ipam.rows)
      requires Restored(first, ipam.blocks, store, done) && HasBack(ipam.tenants, store, done)
      requires ipam.surplus == |Recounted(first, store, done)|
      modifies ipam`blocks, ipam`freeBlocks, ipam`allocatedBlocks, ipam`tenants, ipam`surplus
      ensures ipam.allocatedBlocks - ipam.surplus == |Taken(ipam.blocks)|
      ensures Kept(ipam.persistent, ipam.tidy, ipam.blocks, ipam.freeBlocks, ipam.given, ipam.rows)
      ensures Restored(first, ipam.blocks, store, done') && HasBack(ipam.tenants, store, done')
      ensures ipam.surplus == |Recounted(first, store, done')|
    {
      assert AccountOk(store[id]);
      RestoredNext(first, ipam.blocks, store, done, id);
      if |store[id].networks| > 0 {
        var _ := ipam.RestoreAllocation(id, store[id].networks);
      }
      GatewaysGiven(store[id].networks, store[id].serverIPs);
    }

    /** `CreateAccount`: `id` is none when a random value could not be drawn, `answers` are the
        pools whose query the database answers, `stored` is what the account store answers. A
        failure at any point leaves no trace in the allocator's records; in its table, rows may be
        left to the id that was drawn. */
    method CreateAccount(id: Option<string>, maxPeers: int, answers: set<nat>, stored: bool) returns (r: Option<Account>)
      requires Valid()
      modifies this, ipam
      ensures Valid()
      ensures r.Some? <==>
        && id.Some? && id.value !in old(store) && stored
        && old(ipam.Grantable(BlocksForPeers(PeerLimit(maxPeers)), answers))
      ensures r.Some? ==>
        && store == old(store)[id.value := r.value]
        && |r.value.networks| == BlocksForPeers(PeerLimit(maxPeers)) == old(ipam.Room()) - ipam.Room()
        && r.value.maxPeers == (if maxPeers > 0 then maxPeers else 30)
        && 29 * |r.value.networks| >= r.value.maxPeers
        && (|r.value.networks| > 1 ==> 29 * (|r.value.networks| - 1) < r.value.maxPeers)
        && Vacated(old(ipam.blocks), r.value.networks)
      ensures r.None? ==>
        store == old(store) && ipam.blocks == old(ipam.blocks) && ipam.tenants == old(ipam.tenants)
      ensures if id.Some? then ChangesFor(old(ipam.rows), ipam.rows, id.value) else ipam.rows == old(ipam.rows)
    {
      if id.None? {
        return None;
      }
      var limit := PeerLimit(maxPeers);
      var allocation := ipam.AllocateTenant(id.value, BlocksForPeers(limit), answers);
      if allocation.None? {
        return None;
      }
      var a := allocation.value;
      var account := Account(a.networks, a.serverIPs, |a.networks|, limit);
      ghost var claimed := ipam.rows;
      var kept := StoreNew(id.value, account, stored, old(ipam.blocks), old(ipam.tenants));
      ClaimReleased(old(ipam.rows), claimed, ipam.rows, id.value);
      return if kept then Some(account) else None;
    }

    /** Store the new account, or give its blocks back if the store refuses it. */
    method StoreNew(id: string, account: Account, stored: bool, ghost blocks: Blocks, ghost tenants: Tenants)
      returns (kept: bool)
      requires ipam.Valid() && Accounted(store, tenants) && id !in tenants
      requires |account.networks| >= 1 && account.blockCount == |account.networks|
      requires ipam.tenants == tenants[id := Allocation(account.networks, account.serverIPs)]
      requires Blank(blocks) && Vacated(blocks, account.networks) && ipam.blocks == Marked(blocks, account.networks, id)
      modifies this, ipam
      ensures Valid() && kept == stored
      ensures store == if stored then old(store)[id := account] else old(store)
      ensures if stored then ipam.blocks == old(ipam.blocks) else ipam.blocks == blocks && ipam.tenants == tenants
      ensures Releases(old(ipam.rows), ipam.rows, id)
    {
      if !stored {
        FreedMarked(blocks, account.networks, id);
        assert ipam.tenants - {id} == tenants;
        var released: bool, writes: nat -> bool := *, *;
        var _ := ipam.ReleaseTenant(id, released, writes);
        return false;
      }
      CreatedOk(ipam.blocks, tenants, ipam.tenants, store, id, account);
      store := store[id := account];
      return true;
    }

    /** `SetMaxPeers`: `found` and `updated` are what the store answers. The new cap is covered
        exactly when the blocks at hand suffice or those needed can be granted; success is
        reported either way. */
    method SetMaxPeers(id: string, limit: int, found: bool, answers: set<nat>, updated: bool) returns (ok: bool)
      requires Valid()
      modifies this, ipam
      ensures Valid()
      ensures ok <==> limit >= 0 && found && id in old(store) && updated
      ensures !ok ==> store == old(store)
      ensures ok ==>
        && id in store && store == old(store)[id := store[id]]
        && store[id].maxPeers == (if limit > 0 then limit else 30)
        && old(store)[id].networks <= store[id].networks
        && (29 * |store[id].networks| >= store[id].maxPeers <==>
              old(ipam.Grantable(Shortfall(store[id], PeerLimit(limit)), answers)))
        && (29 * |old(store)[id].networks| >= store[id].maxPeers || 29 * |store[id].networks| < store[id].maxPeers ==>
              store[id].networks == old(store)[id].networks)
    {
      if limit < 0 {
        return false;
      }
      if !found || id !in store {
        return false;
      }
      var acc := Resized(id, PeerLimit(limit), answers);
      if !updated {
        return false;
      }
      UpdateAccount(id, acc);
      return true;
    }

    /** `UpdateAccount` of the store, when it succeeds. */
    method UpdateAccount(id: string, acc: Account)
      requires Valid() && id in store && AccountOk(acc) && Within(acc.networks, ipam.tenants[id].networks)
      modifies this`store
      ensures Valid() && store == old(store)[id := acc]
    {
      store := store[id := acc];
    }

    /** The account with its new cap, and with more blocks if it needs them and they are granted. */
    method Resized(id: string, cap: int, answers: set<nat>) returns (acc: Account)
      requires Valid() && id in store
      modifies ipam
      ensures Valid() && AccountOk(acc) && Within(acc.networks, ipam.tenants[id].networks)
      ensures acc.maxPeers == cap && store[id].networks <= acc.networks
      ensures USABLE * |acc.networks| >= cap <==> old(ipam.Grantable(Shortfall(store[id], cap), answers))
      ensures USABLE * |store[id].networks| >= cap || USABLE * |acc.networks| < cap ==> acc.networks == store[id].networks
    {
      acc := store[id].(maxPeers := cap);
      var needed := Shortfall(acc, cap);
      assert needed == Shortfall(store[id], cap);
      if needed > 0 {
        acc := Grow(id, acc, needed, answers);
      }
      CoverExactly(|acc.networks|, cap);
      CoverExactly(|store[id].networks|, cap);
    }

    /** Expand the tenant and take over its blocks; an expansion that fails is ignored. */
    method Grow(id: string, acc: Account, needed: nat, answers: set<nat>) returns (r: Account)
      requires Valid() && id in store && acc == store[id].(maxPeers := acc.maxPeers)
      modifies ipam
      ensures Valid() && AccountOk(r) && Within(r.networks, ipam.tenants[id].networks)
      ensures r.maxPeers == acc.maxPeers && acc.networks <= r.networks
      ensures if old(ipam.Grantable(needed, answers)) then
          |r.networks| >= |acc.networks| + needed && Within(ipam.tenants[id].networks, r.networks)
        else r == acc
    {
      var allocation := ipam.ExpandTenant(id, needed, answers);
      if allocation.None? {
        return acc;
      }
      TenantOk(ipam.blocks, ipam.tenants, id);
      var networks, serverIPs := NewBlocks(acc, allocation.value);
      ExtendedOk(acc, old(ipam.tenants)[id].networks, allocation.value.networks, needed, networks, serverIPs);
      StillAccounted(store, old(ipam.tenants), id, allocation.value, needed);
      return Extended(acc, networks, serverIPs);
    }

    /** `AddBlockToAccount`: the account ends with every block its tenant holds. */
    method AddBlockToAccount(id: string, found: bool, answers: set<nat>, updated: bool) returns (r: Option<Account>)
      requires Valid()
      modifies this, ipam
      ensures Valid()
      ensures r.Some? <==> found && id in old(store) && old(ipam.Grantable(1, answers)) && updated
      ensures r.None? ==> store == old(store)
      ensures r.Some? ==>
        && store == old(store)[id := r.value]
        && r.value.maxPeers == old(store)[id].maxPeers
        && old(store)[id].networks < r.value.networks
        && Within(ipam.tenants[id].networks, r.value.networks)
    {
      if !found || id !in store {
        return None;
      }
      var account := store[id];
      var grown := Grow(id, account, 1, answers);
      if |grown.networks| == |account.networks| || !updated {
        return None;
      }
      UpdateAccount(id, grown);
      return Some(grown);
    }

    /** `RemoveBlockFromAccount`: the allocator is not told, so the block stays with the tenant. */
    method RemoveBlockFromAccount(id: string, cidr: string, found: bool, updated: bool) returns (r: Option<Account>)
      requires Valid()
      modifies this`store
      ensures Valid()
      ensures r.Some? <==>
        && found && id in old(store) && updated && |old(store)[id].networks| > 1
        && exists b :: b in old(store)[id].networks && Cidr(b) == cidr
      ensures r.None? ==> store == old(store)
      ensures r.Some? ==>
        && store == old(store)[id := r.value]
        && exists i :: 0 <= i < |old(store)[id].networks| && Cidr(old(store)[id].networks[i]) == cidr
             && r.value == Shrunk(old(store)[id], i)
    {
      if !found || id !in store {
        return None;
      }
      var account := store[id];
      var index := 0;
      while index < |account.networks| && Cidr(account.networks[index]) != cidr
        invariant 0 <= index <= |account.networks|
        invariant forall k :: 0 <= k < index ==> Cidr(account.networks[k]) != cidr
      {
        index := index + 1;
      }
      if index == |account.networks| || |account.networks| <= 1 {
        return None;
      }
      ShrunkOk(account, index);
      var shrunk := Shrunk(account, index);
      if !updated {
        return None;
      }
      UpdateAccount(id, shrunk);
      return Some(shrunk);
    }

    /** `DeleteAccount`: every block of the tenant is free again, also those the account had lost. */
    method DeleteAccount(id: string, found: bool, deleted: bool) returns (ok: bool)
      requires Valid()
      modifies this, ipam
      ensures Valid()
      ensures ok <==> found && id in old(store) && deleted
      ensures store == if ok then old(store) - {id} else old(store)
      ensures ipam.blocks ==
        if ok then Freed(old(ipam.blocks), old(ipam.tenants)[id].networks) else old(ipam.blocks)
    {
      if !found || id !in store || !deleted {
        return false;
      }
      store := store - {id};
      var released: bool, writes: nat -> bool := *, *;
      var _ := ipam.ReleaseTenant(id, released, writes);
      return true;
    }
  }

  // ---- Restoring ----

  /** No two accounts share a block. */
  ghost predicate Apart(store: map<string, Account>) {
    forall x, y, b :: x in store && y in store && b in store[x].networks && b in store[y].networks ==> x == y
  }

  /** Accounts as a manager stores them, whose blocks are all known. */
  ghost predicate Restorable(store: map<string, Account>, blocks: Blocks) {
    && Apart(store)
    && forall id :: id in store ==> AccountOk(store[id]) && forall b :: b in store[id].networks ==> b in blocks
  }

  ghost predicate OwnedBy(store: map<string, Account>, id: string, b: nat) {
    id in store && b in store[id].networks
  }

  ghost predicate Owned(store: map<string, Account>, ids: set<string>, b: nat) {
    exists id :: id in ids && OwnedBy(store, id, b)
  }

  /** The record of `b` once the accounts `done` are restored. */
  ghost predicate RestoredAt(first: Blocks, blocks: Blocks, store: map<string, Account>, done: set<string>, b: nat)
    requires b in first && b in blocks
  {
    if Owned(store, done, b) then
      && blocks[b].poolIndex == first[b].poolIndex
      && blocks[b].taken && blocks[b].tenantID in done && OwnedBy(store, blocks[b].tenantID, b)
    else blocks[b] == first[b]
  }

  ghost predicate Restored(first: Blocks, blocks: Blocks, store: map<string, Account>, done: set<string>) {
    blocks.Keys == first.Keys && forall b :: b in first ==> RestoredAt(first, blocks, store, done, b)
  }

  ghost predicate HasBack(tenants: Tenants, store: map<string, Account>, done: set<string>) {
    tenants.Keys == done &&
    forall id :: id in done && id in store ==> tenants[id] == Allocation(store[id].networks, store[id].serverIPs)
  }

  /** The restored blocks that were taken already. */
  ghost function Recounted(first: Blocks, store: map<string, Account>, done: set<string>): set<nat> {
    set b | b in first && first[b].taken && Owned(store, done, b)
  }

  /** Every taken block is listed by an account. */
  ghost predicate NoOrphans(blocks: Blocks, store: map<string, Account>) {
    forall b :: b in blocks && blocks[b].taken ==> Owned(store, store.Keys, b)
  }

  /** Every block of an account is held for it in the table. */
  ghost predicate AllBacked(store: map<string, Account>, rows: Blocks) {
    forall id, b :: OwnedBy(store, id, b) ==> HeldBy(rows, b, id)
  }

  lemma GatewaysGiven(networks: seq<nat>, serverIPs: seq<nat>)
    requires Gateways(networks, serverIPs)
    ensures FirstUsable(networks) == serverIPs
  {
  }

  lemma RestoredNone(first: Blocks, store: map<string, Account>)
    ensures Restored(first, first, store, store.Keys - store.Keys)
    ensures HasBack(map[], store, store.Keys - store.Keys) && |Recounted(first, store, store.Keys - store.Keys)| == 0
  {
    assert Recounted(first, store, store.Keys - store.Keys) == {};
  }

  lemma RestoredNext(first: Blocks, blocks: Blocks, store: map<string, Account>, done: set<string>, id: string)
    requires Restored(first, blocks, store, done) && Restorable(store, first) && done <= store.Keys
    requires id in store && id !in done
    ensures Restored(first, Marked(blocks, store[id].networks, id), store, done + {id})
    ensures |Recounted(first, store, done + {id})| == |Recounted(first, store, done)| + |BusyOf(blocks, store[id].networks)|
    ensures (forall b :: b in store[id].networks ==> b in blocks) && NoDup(store[id].networks)
  {
    assert AccountOk(store[id]);
    var s := store[id].networks;
    forall b | b in first
      ensures Owned(store, done + {id}, b) <==> Owned(store, done, b) || b in s
      ensures b in s ==> !Owned(store, done, b) && blocks[b] == first[b]
    {
      OwnedNext(store, done, id, b);
      assert RestoredAt(first, blocks, store, done, b);
    }
    RestoredMarked(first, blocks, store, done, id);
    assert Recounted(first, store, done + {id}) == Recounted(first, store, done) + BusyOf(blocks, s);
    assert Recounted(first, store, done) !! BusyOf(blocks, s);
  }

  lemma OwnedNext(store: map<string, Account>, done: set<string>, id: string, b: nat)
    requires Apart(store) && id in store && id !in done && done <= store.Keys
    ensures Owned(store, done + {id}, b) <==> Owned(store, done, b) || b in store[id].networks
    ensures b in store[id].networks ==> !Owned(store, done, b)
  {
    if b in store[id].networks {
      assert OwnedBy(store, id, b) && id in done + {id};
    }
    if x :| x in done + {id} && OwnedBy(store, x, b) {
      assert x != id ==> x in done;
    }
    if x :| x in done && OwnedBy(store, x, b) {
      assert x in done + {id};
    }
  }

  lemma RestoredMarked(first: Blocks, blocks: Blocks, store: map<string, Account>, done: set<string>, id: string)
    requires Restored(first, blocks, store, done) && Apart(store) && done <= store.Keys && id in store && id !in done
    ensures Restored(first, Marked(blocks, store[id].networks, id), store, done + {id})
  {
    var s, blocks' := store[id].networks, Marked(blocks, store[id].networks, id);
    forall b | b in first
      ensures RestoredAt(first, blocks', store, done + {id}, b)
    {
      OwnedNext(store, done, id, b);
      assert RestoredAt(first, blocks, store, done, b);
      if b in s {
        assert OwnedBy(store, id, b);
      }
    }
  }

  /** The records once all accounts are restored. */
  lemma RestoredValid(first: Blocks, blocks: Blocks, tenants: Tenants, store: map<string, Account>, rows: Blocks)
    requires Restorable(store, first) && AllAligned(first) && Blank(first)
    requires Restored(first, blocks, store, store.Keys) && HasBack(tenants, store, store.Keys)
    ensures Records(blocks, tenants, "", []) <==> NoOrphans(first, store)
    ensures NoOrphans(first, store) ==> (Backed(blocks, rows) <==> AllBacked(store, rows))
    ensures Accounted(store, tenants)
  {
    RestoredRecords(first, blocks, tenants, store);
    if NoOrphans(first, store) {
      RestoredBacked(first, blocks, store, rows);
    }
  }

  /** The manager once all accounts are restored. */
  lemma RestoredManager(persistent: bool, tidy: bool, first: Blocks, blocks: Blocks, free: Queues, given: set<nat>,
                        tenants: Tenants, store: map<string, Account>, rows: Blocks, count: int)
    requires Restorable(store, first) && AllAligned(first) && Blank(first)
    requires Restored(first, blocks, store, store.Keys) && HasBack(tenants, store, store.Keys)
    requires Kept(persistent, tidy, blocks, free, given, rows) && count == |Taken(blocks)|
    ensures Records(blocks, tenants, "", []) && Agree(persistent, tidy, blocks, free, given, rows, count) && Accounted(store, tenants)
      <==> NoOrphans(first, store) && (persistent ==> AllBacked(store, rows))
  {
    RestoredValid(first, blocks, tenants, store, rows);
  }

  lemma RestoredOwner(first: Blocks, blocks: Blocks, store: map<string, Account>, id: string, b: nat)
    requires Apart(store) && Restored(first, blocks, store, store.Keys) && OwnedBy(store, id, b) && b in first
    ensures HeldBy(blocks, b, id)
  {
    assert RestoredAt(first, blocks, store, store.Keys, b) && Owned(store, store.Keys, b);
  }

  lemma RestoredRecords(first: Blocks, blocks: Blocks, tenants: Tenants, store: map<string, Account>)
    requires Restorable(store, first) && AllAligned(first) && Blank(first)
    requires Restored(first, blocks, store, store.Keys) && HasBack(tenants, store, store.Keys)
    ensures Records(blocks, tenants, "", []) <==> NoOrphans(first, store)
  {
    RestoredRecorded(first, blocks, tenants, store);
    forall b | b in first
      ensures (blocks[b].taken ==> (Listed(tenants, blocks[b].tenantID, "", [], b) <==> Owned(store, store.Keys, b)))
      ensures blocks[b].taken <==> first[b].taken || Owned(store, store.Keys, b)
      ensures !blocks[b].taken ==> blocks[b].tenantID == ""
    {
      assert RestoredAt(first, blocks, store, store.Keys, b);
      if blocks[b].tenantID in store && b in store[blocks[b].tenantID].networks {
        assert OwnedBy(store, blocks[b].tenantID, b);
      }
    }
  }

  lemma RestoredRecorded(first: Blocks, blocks: Blocks, tenants: Tenants, store: map<string, Account>)
    requires Restorable(store, first) && Restored(first, blocks, store, store.Keys) && HasBack(tenants, store, store.Keys)
    ensures Recorded(blocks, tenants)
  {
    forall id | id in tenants
      ensures Holding(blocks, tenants[id].networks, id) && Gateways(tenants[id].networks, tenants[id].serverIPs)
    {
      assert AccountOk(store[id]);
      forall b | b in tenants[id].networks
        ensures HeldBy(blocks, b, id)
      {
        RestoredOwner(first, blocks, store, id, b);
      }
    }
  }

  lemma RestoredBacked(first: Blocks, blocks: Blocks, store: map<string, Account>, rows: Blocks)
    requires Restorable(store, first) && Restored(first, blocks, store, store.Keys) && NoOrphans(first, store)
    ensures Backed(blocks, rows) <==> AllBacked(store, rows)
  {
    if AllBacked(store, rows) {
      forall b | b in blocks && blocks[b].taken
        ensures HeldBy(rows, b, blocks[b].tenantID)
      {
        assert RestoredAt(first, blocks, store, store.Keys, b);
        assert OwnedBy(store, blocks[b].tenantID, b);
      }
    }
    if Backed(blocks, rows) {
      forall id, b | OwnedBy(store, id, b)
        ensures HeldBy(rows, b, id)
      {
        RestoredOwner(first, blocks, store, id, b);
      }
    }
  }

  lemma TenantOk(blocks: Blocks, tenants: Tenants, id: string)
    requires Records(blocks, tenants, "", []) && id in tenants
    ensures NoDup(tenants[id].networks) && AllAre27(tenants[id].networks)
    ensures Gateways(tenants[id].networks, tenants[id].serverIPs)
  {
    assert Holding(blocks, tenants[id].networks, id);
    assert forall b :: b in tenants[id].networks ==> HeldBy(blocks, b, id) && Aligned(b);
  }

  lemma CreatedOk(blocks: Blocks, before: Tenants, tenants: Tenants, store: map<string, Account>, id: string, account: Account)
    requires Accounted(store, before) && id in tenants && tenants == before[id := tenants[id]]
    requires Records(blocks, tenants, "", [])
    requires |tenants[id].networks| >= 1
    requires account == Account(tenants[id].networks, tenants[id].serverIPs, |tenants[id].networks|, account.maxPeers)
    ensures Accounted(store[id := account], tenants)
  {
    TenantOk(blocks, tenants, id);
  }

  lemma StillAccounted(store: map<string, Account>, tenants: Tenants, id: string, a: Allocation, n: nat)
    requires Accounted(store, tenants) && id in tenants && Grown(tenants[id].networks, a.networks, n)
    ensures Accounted(store, tenants[id := a])
  {
    assert forall b :: b in tenants[id].networks ==> b in a.networks[..|tenants[id].networks|];
  }
}
