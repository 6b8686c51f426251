/** The allocator's table in the database (internal/store/postgres/ipam_repository.go), which
    several cores may share, and what keeps it from giving a block to two tenants. */
module IpamDatabase {
  import opened IpamRecords

  /** The free rows of a pool, among which a query picks. */
  function FreeRows(rows: Blocks, p: nat): set<nat> {
    set b | b in rows && !rows[b].taken && rows[b].poolIndex == p
  }

  /** Every block held in memory is held by the same tenant in the table. */
  ghost predicate Backed(blocks: Blocks, rows: Blocks) {
    forall b :: b in blocks && blocks[b].taken ==> HeldBy(rows, b, blocks[b].tenantID)
  }

  /** The same, except for the blocks `bs`. */
  ghost predicate BackedBut(blocks: Blocks, rows: Blocks, bs: seq<nat>) {
    forall b :: b in blocks && blocks[b].taken && b !in bs ==> HeldBy(rows, b, blocks[b].tenantID)
  }

  /** The table knows only blocks that are known in memory, and its free rows name no tenant. */
  ghost predicate Known(blocks: Blocks, rows: Blocks) {
    rows.Keys <= blocks.Keys && Blank(rows)
  }

  /** Tenant `t` was given free rows, and nothing else changed. */
  ghost predicate Claims(rows: Blocks, rows': Blocks, t: string) {
    && rows'.Keys == rows.Keys
    && forall b :: b in rows && rows'[b] != rows[b] ==> !rows[b].taken && rows'[b] == Block27(rows[b].poolIndex, t, true)
  }

  /** Rows of tenant `t`, or free ones, were freed, and nothing else changed. */
  ghost predicate Releases(rows: Blocks, rows': Blocks, t: string) {
    && rows'.Keys == rows.Keys
    && forall b :: b in rows && rows'[b] != rows[b] ==> !rows'[b].taken && (rows[b].taken ==> rows[b].tenantID == t)
  }

  /** A block held in memory is not free in the table. */
  lemma HeldIsTaken(blocks: Blocks, rows: Blocks, b: nat)
    requires Backed(blocks, rows) && b in blocks && b in rows
    ensures blocks[b].taken ==> rows[b].taken
  {
  }

  lemma MarkedClaims(rows: Blocks, s: seq<nat>, t: string)
    requires forall b :: b in s ==> b in rows && !rows[b].taken
    ensures Claims(rows, Marked(rows, s, t), t)
  {
  }

  // ---- Several cores ----

  /** Two cores over one table hold no block in common, except for the same tenant. */
  lemma CoresAreDisjoint(x: Blocks, y: Blocks, rows: Blocks, b: nat, t: string, u: string)
    requires Backed(x, rows) && Backed(y, rows)
    requires HeldBy(x, b, t) && HeldBy(y, b, u)
    ensures t == u
  {
    assert HeldBy(rows, b, t) && HeldBy(rows, b, u);
  }

  /** What one core claims leaves every core backed, itself included. */
  lemma ClaimsKeepBacked(blocks: Blocks, rows: Blocks, rows': Blocks, t: string)
    requires Backed(blocks, rows) && Claims(rows, rows', t)
    ensures Backed(blocks, rows')
  {
    forall b | b in blocks && blocks[b].taken
      ensures HeldBy(rows', b, blocks[b].tenantID)
    {
      assert HeldBy(rows, b, blocks[b].tenantID);
    }
  }

  /** What one core releases leaves another backed if and only if no row it freed is of a block the
      other holds for the released tenant. */
  lemma ReleasesKeepBacked(other: Blocks, rows: Blocks, rows': Blocks, t: string)
    requires Backed(other, rows) && Releases(rows, rows', t)
    ensures Backed(other, rows') <==> forall b :: HeldBy(other, b, t) ==> HeldBy(rows', b, t)
  {
    forall b | b in other && other[b].taken && other[b].tenantID != t
      ensures HeldBy(rows', b, other[b].tenantID)
    {
      assert HeldBy(rows, b, other[b].tenantID);
    }
    if Backed(other, rows') {
      forall b | HeldBy(other, b, t)
        ensures HeldBy(rows', b, t)
      {
        assert other[b].taken;
      }
    }
  }

  // ---- Releasing ----

  /** The table after all rows of tenant `t` are freed. */
  function RowsFreed(rows: Blocks, t: string): Blocks {
    map b | b in rows :: if rows[b].tenantID == t then Block27(rows[b].poolIndex, "", false) else rows[b]
  }

  /** The rows of the blocks `bs` are those of tenant `t` or free. */
  ghost predicate RowsOf(rows: Blocks, bs: seq<nat>, t: string) {
    forall b :: b in bs ==> b in rows && (rows[b].taken ==> rows[b].tenantID == t)
  }

  /** The blocks of a tenant about to be released. */
  lemma BackedButOwn(blocks: Blocks, tenants: Tenants, rows: Blocks, rows': Blocks, t: string, bs: seq<nat>)
    requires Records(blocks, tenants, t, bs) && t !in tenants && Backed(blocks, rows)
    requires rows' == rows || rows' == RowsFreed(rows, t)
    ensures BackedBut(blocks, rows', bs) && RowsOf(rows', bs, t) && Releases(rows, rows', t)
  {
    forall b | b in blocks && blocks[b].taken && b !in bs
      ensures HeldBy(rows', b, blocks[b].tenantID)
    {
      assert Listed(tenants, blocks[b].tenantID, t, bs, b);
      assert HeldBy(rows, b, blocks[b].tenantID);
    }
    forall b | b in bs
      ensures b in rows' && (rows'[b].taken ==> rows'[b].tenantID == t)
    {
      assert HeldBy(blocks, b, t) && HeldBy(rows, b, t);
    }
  }

  /** One block of a release loop; its row is written or not. */
  lemma ReleaseRow(blocks: Blocks, rows: Blocks, rows': Blocks, bs: seq<nat>, i: nat, t: string, p: nat)
    requires i < |bs| && BackedBut(blocks, rows, bs[i..]) && RowsOf(rows, bs[i..], t)
    requires rows' == rows || rows' == rows[bs[i] := Block27(p, "", false)]
    ensures BackedBut(blocks[bs[i] := Block27(p, "", false)], rows', bs[i + 1..]) && RowsOf(rows', bs[i + 1..], t)
    ensures Releases(rows, rows', t)
  {
    var b := bs[i];
    assert bs[i..] == [b] + bs[i + 1..];
    assert b in bs[i..];
    var blocks' := blocks[b := Block27(p, "", false)];
    forall c | c in blocks' && blocks'[c].taken && c !in bs[i + 1..]
      ensures HeldBy(rows', c, blocks'[c].tenantID)
    {
      assert HeldBy(rows, c, blocks[c].tenantID);
    }
  }

  lemma ReleasesTwice(rows: Blocks, rows': Blocks, rows'': Blocks, t: string)
    requires Releases(rows, rows', t) && Releases(rows', rows'', t)
    ensures Releases(rows, rows'', t)
  {
  }

  /** The row is free or that of tenant `t`. */
  ghost predicate OpenTo(rows: Blocks, b: nat, t: string) {
    b in rows && (rows[b].taken ==> rows[b].tenantID == t)
  }

  /** Only rows open to `t` changed, and they still are. */
  ghost predicate ChangesFor(rows: Blocks, rows': Blocks, t: string) {
    && rows'.Keys == rows.Keys
    && forall b :: b in rows && rows'[b] != rows[b] ==> OpenTo(rows, b, t) && OpenTo(rows', b, t)
  }

  /** As a claim that is released again does. */
  lemma ClaimReleased(rows: Blocks, rows': Blocks, rows'': Blocks, t: string)
    requires Claims(rows, rows', t) && Releases(rows', rows'', t)
    ensures ChangesFor(rows, rows'', t)
  {
  }
}
