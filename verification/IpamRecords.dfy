/** What the block allocator (internal/state/ipam.go) keeps in memory about blocks and tenants:
    a record for each /27 block and what each tenant holds. A block is named by the number of its
    first address. */
module IpamRecords {
  const BLOCK := 32
  const ADDRESSES := 0x1_0000_0000

  /** A block's record; a free block belongs to the empty tenant. */
  datatype Block27 = Block27(poolIndex: nat, tenantID: string, taken: bool)

  datatype Allocation = Allocation(networks: seq<nat>, serverIPs: seq<nat>)

  type Blocks = map<nat, Block27>
  type Tenants = map<string, Allocation>

  // ---- What the records must satisfy ----

  ghost predicate NoDup<T(!new)>(s: seq<T>) {
    forall i, j :: 0 <= i < j < |s| ==> s[i] != s[j]
  }

  ghost predicate Aligned(b: nat) {
    b % BLOCK == 0 && b + BLOCK <= ADDRESSES
  }

  ghost predicate AllAligned(blocks: Blocks) {
    forall b :: b in blocks ==> Aligned(b)
  }

  ghost predicate Free(blocks: Blocks, b: nat, p: nat) {
    b in blocks && blocks[b] == Block27(p, "", false)
  }

  ghost predicate HeldBy(blocks: Blocks, b: nat, t: string) {
    b in blocks && blocks[b].taken && blocks[b].tenantID == t
  }

  /** A block that is not taken names no tenant. */
  ghost predicate Blank(blocks: Blocks) {
    forall b :: b in blocks && !blocks[b].taken ==> blocks[b].tenantID == ""
  }

  ghost predicate Gateways(networks: seq<nat>, serverIPs: seq<nat>) {
    |serverIPs| == |networks| && forall i :: 0 <= i < |networks| ==> serverIPs[i] == networks[i] + 1
  }

  ghost predicate Holding(blocks: Blocks, s: seq<nat>, t: string) {
    NoDup(s) && forall b :: b in s ==> HeldBy(blocks, b, t)
  }

  /** Tenant `t` holds blocks marked as its own, none twice, each with its gateway. */
  ghost predicate Recorded(blocks: Blocks, tenants: Tenants) {
    forall t :: t in tenants ==>
      Holding(blocks, tenants[t].networks, t) && Gateways(tenants[t].networks, tenants[t].serverIPs)
  }

  /** `extra` are blocks marked for `t` that are not in its record. */
  ghost predicate Pending(blocks: Blocks, tenants: Tenants, t: string, extra: seq<nat>) {
    && Holding(blocks, extra, t)
    && (t in tenants ==> forall b :: b in extra ==> b !in tenants[t].networks)
  }

  ghost predicate Listed(tenants: Tenants, u: string, t: string, extra: seq<nat>, b: nat) {
    (u in tenants && b in tenants[u].networks) || (u == t && b in extra)
  }

  /** Every block marked for a tenant is in its record or in hand. */
  ghost predicate Claimed(blocks: Blocks, tenants: Tenants, t: string, extra: seq<nat>) {
    forall b :: b in blocks && blocks[b].taken ==> Listed(tenants, blocks[b].tenantID, t, extra, b)
  }

  /** Every taken block is in exactly one place, once: the record of the tenant it is marked for,
      or the `extra` blocks a call has in hand for `t`. */
  ghost predicate Records(blocks: Blocks, tenants: Tenants, t: string, extra: seq<nat>) {
    && AllAligned(blocks)
    && Blank(blocks)
    && Recorded(blocks, tenants)
    && Pending(blocks, tenants, t, extra)
    && Claimed(blocks, tenants, t, extra)
  }

  ghost function Vacant(blocks: Blocks): set<nat> {
    set b | b in blocks && !blocks[b].taken
  }

  ghost function Taken(blocks: Blocks): set<nat> {
    set b | b in blocks && blocks[b].taken
  }

  /** The records after the blocks `s` are given to `t`. */
  function Marked(blocks: Blocks, s: seq<nat>, t: string): Blocks {
    map b | b in blocks :: if b in s then Block27(blocks[b].poolIndex, t, true) else blocks[b]
  }

  /** The records after the blocks `s` are taken back. */
  ghost function Freed(blocks: Blocks, s: seq<nat>): Blocks {
    map b | b in blocks :: if b in s then Block27(blocks[b].poolIndex, "", false) else blocks[b]
  }

  /** No block is held by two tenants. */
  lemma TenantsAreDisjoint(blocks: Blocks, tenants: Tenants, t: string, u: string, b: nat)
    requires Records(blocks, tenants, "", [])
    requires t in tenants && u in tenants
    requires b in tenants[t].networks && b in tenants[u].networks
    ensures t == u
  {
    assert HeldBy(blocks, b, t) && HeldBy(blocks, b, u);
  }

  // ---- Lists without repetition ----

  lemma NoDupFront<T(!new)>(s: seq<T>)
    requires NoDup(s) && |s| > 0
    ensures NoDup(s[..|s| - 1]) && s[|s| - 1] !in s[..|s| - 1]
    ensures forall x :: x in s <==> x in s[..|s| - 1] || x == s[|s| - 1]
  {
    assert s == s[..|s| - 1] + [s[|s| - 1]];
  }

  lemma NoDupAppend<T(!new)>(s: seq<T>, x: T)
    requires NoDup(s) && x !in s
    ensures NoDup(s + [x])
  {
  }

  lemma NoDupConcat<T(!new)>(s: seq<T>, r: seq<T>)
    requires NoDup(s) && NoDup(r)
    requires forall x :: x in r ==> x !in s
    ensures NoDup(s + r)
  {
    forall i, j | 0 <= i < j < |s + r|
      ensures (s + r)[i] != (s + r)[j]
    {
      if i < |s| <= j {
        assert (s + r)[j] in r;
      }
    }
  }

  // ---- One block changes hands ----

  /** A free block is marked for `t`. */
  lemma MarkKeeps(blocks: Blocks, tenants: Tenants, t: string, extra: seq<nat>, b: nat)
    requires Records(blocks, tenants, t, extra) && b in blocks && !blocks[b].taken
    ensures b !in extra
    ensures Records(blocks[b := Block27(blocks[b].poolIndex, t, true)], tenants, t, extra + [b])
  {
    var blocks' := blocks[b := Block27(blocks[b].poolIndex, t, true)];
    forall u | u in tenants
      ensures Holding(blocks', tenants[u].networks, u) && b !in tenants[u].networks
    {
      assert Holding(blocks, tenants[u].networks, u);
      assert forall c :: c in tenants[u].networks ==> HeldBy(blocks, c, u) && c != b;
    }
    assert forall c :: c in extra ==> HeldBy(blocks, c, t) && c != b;
    NoDupAppend(extra, b);
    MarkClaims(blocks, tenants, t, extra, b, blocks');
  }

  lemma MarkClaims(blocks: Blocks, tenants: Tenants, t: string, extra: seq<nat>, b: nat, blocks': Blocks)
    requires Claimed(blocks, tenants, t, extra)
    requires b in blocks && blocks' == blocks[b := Block27(blocks[b].poolIndex, t, true)]
    ensures Claimed(blocks', tenants, t, extra + [b])
  {
    forall c | c in blocks' && blocks'[c].taken
      ensures Listed(tenants, blocks'[c].tenantID, t, extra + [b], c)
    {
      assert c != b ==> Listed(tenants, blocks[c].tenantID, t, extra, c);
    }
  }

  /** The first of the blocks in hand is taken back. */
  lemma FreeKeeps(blocks: Blocks, tenants: Tenants, t: string, extra: seq<nat>)
    requires Records(blocks, tenants, t, extra) && extra != []
    ensures HeldBy(blocks, extra[0], t)
    ensures Records(blocks[extra[0] := Block27(blocks[extra[0]].poolIndex, "", false)], tenants, t, extra[1..])
  {
    var b := extra[0];
    assert HeldBy(blocks, b, t);
    var blocks' := blocks[b := Block27(blocks[b].poolIndex, "", false)];
    forall u | u in tenants
      ensures Holding(blocks', tenants[u].networks, u)
    {
      assert forall c :: c in tenants[u].networks ==> HeldBy(blocks, c, u);
    }
    assert forall c :: c in extra[1..] ==> c in extra && c != b && HeldBy(blocks, c, t);
    FreeClaims(blocks, tenants, t, extra, blocks');
  }

  lemma FreeClaims(blocks: Blocks, tenants: Tenants, t: string, extra: seq<nat>, blocks': Blocks)
    requires Claimed(blocks, tenants, t, extra) && extra != [] && extra[0] in blocks
    requires blocks' == blocks[extra[0] := Block27(blocks[extra[0]].poolIndex, "", false)]
    ensures Claimed(blocks', tenants, t, extra[1..])
  {
    assert extra == [extra[0]] + extra[1..];
    forall c | c in blocks' && blocks'[c].taken
      ensures Listed(tenants, blocks'[c].tenantID, t, extra[1..], c)
    {
      assert Listed(tenants, blocks[c].tenantID, t, extra, c);
    }
  }

  // ---- A tenant's record is written or dropped ----

  function FirstUsable(networks: seq<nat>): (r: seq<nat>)
    ensures |r| == |networks| && forall i :: 0 <= i < |r| ==> r[i] == networks[i] + 1
  {
    seq(|networks|, i requires 0 <= i < |networks| => networks[i] + 1)
  }

  /** What `t` holds in its record. */
  function Record(tenants: Tenants, t: string): Allocation {
    if t in tenants then tenants[t] else Allocation([], [])
  }

  /** The blocks in hand are written into the record of `t`. */
  lemma StoreKeeps(blocks: Blocks, tenants: Tenants, t: string, extra: seq<nat>, a: Allocation)
    requires Records(blocks, tenants, t, extra)
    requires a == Allocation(Record(tenants, t).networks + extra, Record(tenants, t).serverIPs + FirstUsable(extra))
    ensures Records(blocks, tenants[t := a], "", [])
  {
    var tenants' := tenants[t := a];
    if t in tenants {
      assert Holding(blocks, tenants[t].networks, t);
    }
    NoDupConcat(Record(tenants, t).networks, extra);
    forall u | u in tenants'
      ensures Holding(blocks, tenants'[u].networks, u) && Gateways(tenants'[u].networks, tenants'[u].serverIPs)
    {
      if u != t {
        assert Holding(blocks, tenants[u].networks, u);
      }
    }
    forall b | b in blocks && blocks[b].taken
      ensures Listed(tenants', blocks[b].tenantID, "", [], b)
    {
      assert Listed(tenants, blocks[b].tenantID, t, extra, b);
    }
  }

  /** The blocks of a dropped record are in hand. */
  lemma DropKeeps(blocks: Blocks, tenants: Tenants, t: string)
    requires Records(blocks, tenants, "", []) && t in tenants
    ensures Records(blocks, tenants - {t}, t, tenants[t].networks)
  {
    assert Holding(blocks, tenants[t].networks, t);
    forall b | b in blocks && blocks[b].taken
      ensures Listed(tenants - {t}, blocks[b].tenantID, t, tenants[t].networks, b)
    {
      assert Listed(tenants, blocks[b].tenantID, "", [], b);
    }
  }

  /** With nothing in hand it does not matter for whom. */
  lemma NothingInHand(blocks: Blocks, tenants: Tenants, t: string, u: string)
    requires Records(blocks, tenants, t, [])
    ensures Records(blocks, tenants, u, [])
  {
    forall b | b in blocks && blocks[b].taken
      ensures Listed(tenants, blocks[b].tenantID, u, [], b)
    {
      assert Listed(tenants, blocks[b].tenantID, t, [], b);
    }
  }

  // ---- Counting ----

  lemma MarkedMore(blocks: Blocks, s: seq<nat>, t: string, b: nat)
    requires b !in s && b in blocks && !blocks[b].taken
    ensures Marked(blocks, s + [b], t) == Marked(blocks, s, t)[b := Block27(blocks[b].poolIndex, t, true)]
    ensures |Vacant(Marked(blocks, s + [b], t))| + 1 == |Vacant(Marked(blocks, s, t))|
    ensures |Taken(Marked(blocks, s + [b], t))| == |Taken(Marked(blocks, s, t))| + 1
  {
    var m, m' := Marked(blocks, s, t), Marked(blocks, s + [b], t);
    assert b in m && !m[b].taken;
    assert m' == m[b := Block27(blocks[b].poolIndex, t, true)];
    assert Vacant(m') == Vacant(m) - {b};
    assert Taken(m') == Taken(m) + {b};
  }

  lemma FreedMore(blocks: Blocks, s: seq<nat>, b: nat)
    requires b !in s && b in blocks && blocks[b].taken
    ensures Freed(blocks, s + [b]) == Freed(blocks, s)[b := Block27(blocks[b].poolIndex, "", false)]
    ensures |Taken(Freed(blocks, s + [b]))| + 1 == |Taken(Freed(blocks, s))|
  {
    var m, m' := Freed(blocks, s), Freed(blocks, s + [b]);
    assert b in m && m[b].taken;
    assert m' == m[b := Block27(blocks[b].poolIndex, "", false)];
    assert Taken(m') == Taken(m) - {b};
  }

  /** All of `s` were free. */
  ghost predicate Vacated(blocks: Blocks, s: seq<nat>) {
    forall b :: b in s ==> b in blocks && !blocks[b].taken
  }

  /** Taking back what was just given restores every record. */
  lemma FreedMarked(blocks: Blocks, s: seq<nat>, t: string)
    requires Blank(blocks) && Vacated(blocks, s)
    ensures Freed(Marked(blocks, s, t), s) == blocks
  {
  }

  lemma MarkedNone(blocks: Blocks, t: string)
    ensures Marked(blocks, [], t) == blocks && Freed(blocks, []) == blocks
  {
  }

  /** The blocks `s` were free among `first` and are now in hand for `t`. */
  ghost predicate InHand(first: Blocks, blocks: Blocks, tenants: Tenants, t: string, s: seq<nat>) {
    && Records(blocks, tenants, t, s)
    && blocks == Marked(first, s, t)
    && Vacated(first, s)
    && |Vacant(blocks)| + |s| == |Vacant(first)|
  }

  /** One more block in hand. */
  lemma InHandMore(first: Blocks, blocks: Blocks, tenants: Tenants, t: string, s: seq<nat>, b: nat)
    requires InHand(first, blocks, tenants, t, s) && b in blocks && !blocks[b].taken
    ensures var blocks' := blocks[b := Block27(blocks[b].poolIndex, t, true)];
      InHand(first, blocks', tenants, t, s + [b]) && |Taken(blocks')| == |Taken(blocks)| + 1
  {
    MarkKeeps(blocks, tenants, t, s, b);
    MarkedMore(first, s, t, b);
  }

  lemma InHandNone(blocks: Blocks, tenants: Tenants, t: string)
    requires Records(blocks, tenants, "", [])
    ensures InHand(blocks, blocks, tenants, t, [])
  {
    MarkedNone(blocks, t);
    NothingInHand(blocks, tenants, "", t);
  }

  /** One turn of a release loop. */
  lemma ReleaseNext(blocks: Blocks, tenants: Tenants, t: string, first: Blocks, bs: seq<nat>, i: nat)
    requires i < |bs| && Records(blocks, tenants, t, bs[i..])
    requires NoDup(bs)
    requires blocks == Freed(first, bs[..i])
    ensures HeldBy(blocks, bs[i], t)
    ensures var blocks' := blocks[bs[i] := Block27(blocks[bs[i]].poolIndex, "", false)];
      && Records(blocks', tenants, t, bs[i + 1..])
      && blocks' == Freed(first, bs[..i + 1])
      && |Taken(blocks')| + 1 == |Taken(blocks)|
  {
    assert bs[i..][0] == bs[i] && bs[i..][1..] == bs[i + 1..];
    FreeKeeps(blocks, tenants, t, bs[i..]);
    assert bs[i] !in bs[..i];
    assert bs[..i + 1] == bs[..i] + [bs[i]];
    FreedMore(first, bs[..i], bs[i]);
  }
}
