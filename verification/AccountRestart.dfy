/** What a restart of the server makes of accounts and allocator (internal/account/manager.go,
    internal/state/ipam.go): the pools are split over the blocks in the table, and every stored
    account gets its blocks back. */
module AccountRestart {
  import opened IpamRecords
  import opened IpamStacks
  import opened IpamDatabase
  import opened Ipam
  import opened Accounts

  // ---- What a valid manager leaves behind ----

  /** Its accounts share no block, and the table holds each block for the account that lists it. */
  lemma StoredAreBacked(blocks: Blocks, tenants: Tenants, rows: Blocks, store: map<string, Account>)
    requires Records(blocks, tenants, "", []) && Accounted(store, tenants) && Backed(blocks, rows)
    ensures Apart(store) && AllBacked(store, rows)
  {
    forall x, y, b | x in store && y in store && b in store[x].networks && b in store[y].networks
      ensures x == y
    {
      StoredBlocksDisjoint(blocks, map[], tenants, store, x, y, b);
    }
    forall id, b | OwnedBy(store, id, b)
      ensures HeldBy(rows, b, id)
    {
      StoredBlocksDisjoint(blocks, map[], tenants, store, id, id, b);
    }
  }

  /** A block its account has given up is an orphan in the table. */
  lemma GivenUpIsOrphan(blocks: Blocks, tenants: Tenants, rows: Blocks, store: map<string, Account>, id: string, b: nat)
    requires Records(blocks, tenants, "", []) && Accounted(store, tenants) && Backed(blocks, rows)
    requires id in tenants && b in tenants[id].networks && b !in store[id].networks
    ensures !NoOrphans(rows, store)
  {
    assert HeldBy(blocks, b, id) && HeldBy(rows, b, id);
    forall x | OwnedBy(store, x, b)
      ensures x == id
    {
      TenantsAreDisjoint(blocks, tenants, x, id, b);
    }
  }

  // ---- What the new allocator starts from ----

  /** Splitting over the table keeps what is taken, and knows every block of the table. */
  lemma SplitOverTable(pools: seq<Pool>, table: Blocks, blocks: Blocks, store: map<string, Account>)
    requires Shape(pools, |pools|, table, blocks) && InPools(pools, table)
    requires Apart(store) && AllBacked(store, table) && forall id :: id in store ==> AccountOk(store[id])
    ensures Restorable(store, blocks)
    ensures NoOrphans(blocks, store) <==> NoOrphans(table, store)
    ensures Recounted(blocks, store, store.Keys) == Recounted(table, store, store.Keys)
  {
    forall b: nat
      ensures (b in table ==> b in blocks) && (b in blocks && blocks[b].taken <==> Busy(table, b))
    {
      assert Shaped(pools, |pools|, table, blocks, b);
    }
    forall id, b | id in store && b in store[id].networks
      ensures b in blocks
    {
      assert OwnedBy(store, id, b) && HeldBy(table, b, id);
    }
    SameOrphans(table, blocks, store);
  }

  lemma SameOrphans(table: Blocks, blocks: Blocks, store: map<string, Account>)
    requires forall b: nat :: b in blocks && blocks[b].taken <==> Busy(table, b)
    ensures NoOrphans(blocks, store) <==> NoOrphans(table, store)
    ensures Recounted(blocks, store, store.Keys) == Recounted(table, store, store.Keys)
  {
    if NoOrphans(blocks, store) {
      forall b | b in table && table[b].taken
        ensures Owned(store, store.Keys, b)
      {
        assert Busy(table, b) && b in blocks;
      }
    }
    if NoOrphans(table, store) {
      forall b | b in blocks && blocks[b].taken
        ensures Owned(store, store.Keys, b)
      {
        assert Busy(table, b);
      }
    }
    forall b
      ensures b in Recounted(blocks, store, store.Keys) <==> b in Recounted(table, store, store.Keys)
    {
      assert b in table && table[b].taken ==> Busy(table, b);
    }
  }

  /** The rows of blocks that were in the table are as they were. */
  lemma TableKept(pools: seq<Pool>, table: Blocks, writes: nat -> bool, blocks: Blocks, rows: Blocks, store: map<string, Account>)
    requires Tabled(pools, table, table, writes, blocks, rows) && AllBacked(store, table)
    ensures AllBacked(store, rows)
  {
    forall id, b | OwnedBy(store, id, b)
      ensures HeldBy(rows, b, id)
    {
      assert HeldBy(table, b, id) && TabledAt(pools, table, table, writes, blocks, rows, b);
    }
  }

  // ---- The restart ----

  /** A server with a database stops after any calls and starts again, and can read the table.
      Every account has its blocks back, and the rows of the table that were there are kept. The
      manager is valid exactly if no row is taken that no account lists. The counter exceeds the
      blocks taken by the number of blocks restored. */
  method Restart(manager: AccountManager, writes: nat -> bool) returns (again: AccountManager)
    requires manager.Valid() && manager.ipam.persistent
    requires PoolsOk(manager.ipam.pools) && InPools(manager.ipam.pools, manager.ipam.rows)
    ensures again.store == manager.store && again.ipam.tenants.Keys == manager.store.Keys
    ensures forall id :: id in manager.store ==> again.ipam.tenants[id].networks == manager.store[id].networks
    ensures AllBacked(manager.store, again.ipam.rows)
    ensures again.ipam.surplus == |Recounted(manager.ipam.rows, manager.store, manager.store.Keys)|
    ensures again.Valid() <==> NoOrphans(manager.ipam.rows, manager.store)
  {
    StoredAreBacked(manager.ipam.blocks, manager.ipam.tenants, manager.ipam.rows, manager.store);
    again := StartOver(manager.ipam.pools, manager.ipam.rows, manager.store, writes);
  }

  /** `NewManager` on what is left. */
  method StartOver(pools: seq<Pool>, table: Blocks, store: map<string, Account>, writes: nat -> bool)
    returns (again: AccountManager)
    requires PoolsOk(pools) && InPools(pools, table) && Blank(table)
    requires Apart(store) && AllBacked(store, table) && forall id :: id in store ==> AccountOk(store[id])
    ensures again.store == store && again.ipam.tenants.Keys == store.Keys
    ensures forall id :: id in store ==> again.ipam.tenants[id].networks == store[id].networks
    ensures AllBacked(store, again.ipam.rows)
    ensures again.ipam.surplus == |Recounted(table, store, store.Keys)|
    ensures again.Valid() <==> NoOrphans(table, store)
  {
    var ipam := new GlobalIpam(pools, true, table, true, writes);
    SplitOverTable(pools, table, ipam.blocks, store);
    TableKept(pools, table, writes, ipam.blocks, ipam.rows, store);
    again := new AccountManager(ipam, store);
    again.RestoreIPAM();
  }
}
