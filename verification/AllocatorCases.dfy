/** Small allocators on which the exceptions to what a reader would expect are real. */
module AllocatorCases {
  import opened Text
  import opened IpamRecords
  import opened IpamStacks
  import opened IpamDatabase
  import opened Ipam
  import opened Accounts
  import opened PeerAddresses

  // ---- One pool of one block ----

  function OnePool(): seq<Pool> {
    [Pool(0, 1)]
  }

  lemma OnePoolOk()
    ensures PoolsOk(OnePool()) && PoolsDisjoint(OnePool())
    ensures forall b: nat :: InSome(OnePool(), 1, b) <==> b == 0
    ensures InPools(OnePool(), map[])
  {
    forall b: nat
      ensures InSome(OnePool(), 1, b) <==> b == 0
    {
      assert InPool(OnePool()[0], b) <==> b == 0;
    }
  }

  lemma SingleBlock(blocks: Blocks)
    requires Shape(OnePool(), 1, map[], blocks)
    ensures blocks.Keys == {0} && blocks[0] == Block27(0, "", false) && Vacant(blocks) == {0} && Taken(blocks) == {}
  {
    OnePoolOk();
    forall b: nat
      ensures b in blocks <==> b == 0
    {
      assert Shaped(OnePool(), 1, map[], blocks, b);
    }
    assert Shaped(OnePool(), 1, map[], blocks, 0);
  }

  lemma SingleRow(table: Blocks, blocks: Blocks, rows: Blocks)
    requires blocks.Keys == {0} && table.Keys <= {0} && Tabled(OnePool(), map[], table, _ => true, blocks, rows)
    ensures rows.Keys == {0} && FreeRows(rows, 0) == {0}
  {
    forall b: nat
      ensures b in rows <==> b == 0
    {
      assert TabledAt(OnePool(), map[], table, _ => true, blocks, rows, b);
    }
    assert TabledAt(OnePool(), map[], table, _ => true, blocks, rows, 0);
  }

  lemma OnlyBlock(blocks: Blocks, s: seq<nat>, t: string)
    requires blocks.Keys == {0} && |s| == 1 && forall b :: b in s ==> b in blocks
    ensures s == [0] && HeldBy(Marked(blocks, s, t), 0, t)
  {
    assert s[0] in blocks;
  }

  /** One block in the only pool, taken by an account for 29 peers. */
  method CreateFull() returns (manager: AccountManager, created: Option<Account>)
    ensures fresh(manager) && fresh(manager.ipam) && manager.Valid() && created.Some? && created.value.maxPeers == 29
    ensures "a" in manager.store && |manager.store["a"].networks| == 1 && manager.store["a"].blockCount == 1
    ensures manager.ipam.Room() == 0 && !manager.ipam.persistent
  {
    OnePoolOk();
    var ipam := new GlobalIpam(OnePool(), false, map[], true, _ => false);
    SingleBlock(ipam.blocks);
    manager := new AccountManager(ipam, map[]);
    created := manager.CreateAccount(Some("a"), 29, {}, true);
  }

  /** A resize that reports success can leave fewer addresses than peers: the account of the only
      block then asks for 30. */
  method ResizeFallsShort() returns (manager: AccountManager, created: Option<Account>, ok: bool)
    ensures manager.Valid() && created.Some? && created.value.maxPeers == 29
    ensures ok && "a" in manager.store && manager.store["a"].maxPeers == 30
    ensures |AcceptedAddresses(manager.store["a"].networks, true)| == 29
  {
    manager, created := CreateFull();
    ok := manager.SetMaxPeers("a", 30, true, {}, true);
    AcceptedCount(manager.store["a"].networks, true);
  }

  // ---- ... with a database ----

  /** The only block is free, in memory and in the table, and its pool can be asked. */
  ghost predicate OneFree(ipam: GlobalIpam)
    reads ipam
  {
    ipam.persistent && ipam.blocks.Keys == ipam.rows.Keys == {0} && FreeRows(ipam.rows, 0) == {0} && 0 in ipam.freeBlocks
  }

  method OneBlockStored() returns (ipam: GlobalIpam)
    ensures fresh(ipam) && ipam.Valid() && ipam.tenants == map[] && OneFree(ipam)
  {
    OnePoolOk();
    ipam := new GlobalIpam(OnePool(), true, map[], true, _ => true);
    SingleBlock(ipam.blocks);
    SingleRow(map[], ipam.blocks, ipam.rows);
  }

  method GiveOut(ipam: GlobalIpam)
    requires ipam.Valid() && ipam.tenants == map[] && OneFree(ipam)
    modifies ipam
    ensures ipam.Valid() && "a" in ipam.tenants && ipam.tenants["a"].networks == [0] && HeldBy(ipam.blocks, 0, "a")
    ensures 0 in ipam.given && ipam.persistent
  {
    assert ipam.Serves(0, 1, {0});
    ghost var before := ipam.blocks;
    var a := ipam.AllocateTenant("a", 1, {0});
    OnlyBlock(before, a.value.networks, "a");
    assert 0 in Elements([0]);
  }

  /** What is kept of the stacks, for one block. */
  lemma Stock(ipam: GlobalIpam, b: nat)
    requires ipam.Valid() && ipam.persistent && b in ipam.blocks
    ensures StockedAt(ipam.blocks, ipam.freeBlocks, ipam.given, b)
  {
  }

  /** A block that is held belongs to those given out, if it was free at the start. */
  lemma GivenOut(ipam: GlobalIpam)
    requires ipam.Valid() && ipam.persistent && 0 in ipam.given && 0 in ipam.blocks
    ensures var stack := ipam.freeBlocks[ipam.blocks[0].poolIndex];
      ipam.blocks[0].poolIndex in ipam.freeBlocks && 0 in stack && (!ipam.blocks[0].taken ==> Twice(stack, 0))
  {
    Stock(ipam, 0);
  }

  /** With a database a block is on its stack while it is held, and twice once it came back. */
  method StacksDrift() returns (holder: string, during: seq<nat>, after: seq<nat>)
    ensures holder == "a" && 0 in during && Twice(after, 0)
  {
    var ipam := OneBlockStored();
    GiveOut(ipam);
    GivenOut(ipam);
    holder, during := ipam.blocks[0].tenantID, ipam.freeBlocks[ipam.blocks[0].poolIndex];
    var ok := ipam.ReleaseTenant("a", false, _ => false);
    GivenOut(ipam);
    after := ipam.freeBlocks[ipam.blocks[0].poolIndex];
  }

  // ---- ... that could not be read at the start ----

  method OneAccount() returns (manager: AccountManager)
    ensures manager.Valid() && manager.store.Keys == {"a"} && manager.store["a"].networks == [0]
    ensures manager.ipam.rows.Keys == {0} && Blank(manager.ipam.rows)
  {
    var ipam := OneBlockStored();
    manager := new AccountManager(ipam, map[]);
    CreateA(manager);
  }

  method CreateA(manager: AccountManager)
    requires manager.Valid() && manager.store == map[] && OneFree(manager.ipam)
    modifies manager, manager.ipam
    ensures manager.Valid() && manager.store.Keys == {"a"} && manager.store["a"].networks == [0]
    ensures manager.ipam.rows.Keys == {0} && Blank(manager.ipam.rows)
  {
    assert manager.ipam.Serves(0, BlocksForPeers(PeerLimit(1)), {0});
    ghost var before := manager.ipam.blocks;
    var a := manager.CreateAccount(Some("a"), 1, {0}, true);
    OnlyBlock(before, a.value.networks, "a");
  }

  /** The allocator starts again without having read the table. */
  method SplitBlind(table: Blocks) returns (ipam: GlobalIpam)
    requires table.Keys == {0} && Blank(table)
    ensures fresh(ipam) && OneFree(ipam) && ipam.blocks[0] == Block27(0, "", false)
    ensures ipam.tenants == map[] && ipam.given == {} && ipam.surplus == 0 && ipam.allocatedBlocks == |Taken(ipam.blocks)|
    ensures Kept(ipam.persistent, ipam.tidy, ipam.blocks, ipam.freeBlocks, ipam.given, ipam.rows)
  {
    OnePoolOk();
    ipam := new GlobalIpam(OnePool(), true, table, false, _ => true);
    SingleBlock(ipam.blocks);
    SingleRow(table, ipam.blocks, ipam.rows);
  }

  method StartBlind(store: map<string, Account>, table: Blocks) returns (again: AccountManager)
    requires store.Keys == {"a"} && AccountOk(store["a"]) && store["a"].networks == [0]
    requires table.Keys == {0} && Blank(table)
    ensures fresh(again) && fresh(again.ipam) && again.store == store
    ensures "a" in again.ipam.tenants && again.ipam.tenants["a"].networks == [0] && OneFree(again.ipam)
  {
    var ipam := SplitBlind(table);
    again := new AccountManager(ipam, store);
    again.RestoreAll();
    assert RestoredAt(map[0 := Block27(0, "", false)], ipam.blocks, store, store.Keys, 0);
    assert StockedAt(ipam.blocks, ipam.freeBlocks, ipam.given, 0);
  }

  /** The table could not be read at the start, but rows could be written: the split has freed the
      row of the only block, and the next query gives it to another tenant although the account
      still holds it. */
  method UnreadTable() returns (again: AccountManager, picked: Option<seq<nat>>)
    ensures "a" in again.store && again.store["a"].networks == [0]
    ensures "a" in again.ipam.tenants && again.ipam.tenants["a"].networks == [0]
    ensures picked == Some([0]) && HeldBy(again.ipam.blocks, 0, "b")
  {
    var manager := OneAccount();
    again := StartBlind(manager.store, manager.ipam.rows);
    picked := GiveAgain(again.ipam);
  }

  method GiveAgain(ipam: GlobalIpam) returns (picked: Option<seq<nat>>)
    requires OneFree(ipam)
    modifies ipam`blocks, ipam`allocatedBlocks, ipam`given, ipam`rows
    ensures picked == Some([0]) && HeldBy(ipam.blocks, 0, "b")
  {
    assert ipam.Serves(0, 1, {0});
    ghost var before := ipam.blocks;
    picked := ipam.AllocateStored("b", 1, {0});
    OnlyBlock(before, picked.value, "b");
  }

  // ---- Two pools of one block each ----

  function TwoPools(): seq<Pool> {
    [Pool(0, 1), Pool(32, 1)]
  }

  lemma TwoPoolsOk()
    ensures PoolsOk(TwoPools()) && InPools(TwoPools(), map[])
    ensures forall b: nat :: InPool(TwoPools()[0], b) <==> b == 0
    ensures forall b: nat :: InPool(TwoPools()[1], b) <==> b == 32
    ensures PoolsDisjoint(TwoPools())
  {
  }

  /** They serve a request for two blocks together, but with a database neither does. */
  method OnePoolMustServe() returns (popped: Option<Allocation>, stored: Option<Allocation>)
    ensures popped.Some? && stored.None?
  {
    popped := TwoPopped();
    stored := TwoStored();
  }

  method TwoPopped() returns (r: Option<Allocation>)
    ensures r.Some?
  {
    TwoPoolsOk();
    var memory := new GlobalIpam(TwoPools(), false, map[], true, _ => false);
    TwoBlocks(memory.blocks);
    r := memory.AllocateTenant("a", 2, {});
  }

  method TwoStored() returns (r: Option<Allocation>)
    ensures r.None?
  {
    TwoPoolsOk();
    var database := new GlobalIpam(TwoPools(), true, map[], true, _ => true);
    forall p: nat
      ensures !database.Serves(p, 2, {0, 1})
    {
      OneRow(database.blocks, database.rows, p);
    }
    r := database.AllocateTenant("a", 2, {0, 1});
  }

  lemma TwoBlocks(blocks: Blocks)
    requires Shape(TwoPools(), 2, map[], blocks)
    ensures |Vacant(blocks)| == 2
  {
    TwoPoolsOk();
    assert InPool(TwoPools()[0], 0) && InPool(TwoPools()[1], 32);
    forall b: nat
      ensures b in blocks <==> b == 0 || b == 32
      ensures b in blocks ==> !blocks[b].taken
    {
      assert Shaped(TwoPools(), 2, map[], blocks, b);
    }
    assert Vacant(blocks) == {0, 32};
  }

  lemma OneRow(blocks: Blocks, rows: Blocks, p: nat)
    requires Tabled(TwoPools(), map[], map[], _ => true, blocks, rows)
    ensures |FreeRows(rows, p)| <= 1
  {
    TwoPoolsOk();
    var only := if p == 0 then 0 else 32;
    forall b | b in FreeRows(rows, p)
      ensures b == only
    {
      assert TabledAt(TwoPools(), map[], map[], _ => true, blocks, rows, b);
    }
    assert FreeRows(rows, p) == {} || FreeRows(rows, p) == {only};
  }
}
