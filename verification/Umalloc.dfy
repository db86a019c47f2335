/** umalloc.c, the allocator of Kernighan and Ritchie: a circular free list in
    address order. Addresses count header-sized units. */
module Umalloc {
  const HEADER := 8        // sizeof(Header)
  const MINUNITS := 4096

  datatype Header = Header(ptr: int, size: int)

  // ---- the free list ----

  ghost predicate Lt(free: seq<int>, i: int, j: int)
    requires 0 <= i < |free| && 0 <= j < |free|
  {
    free[i] < free[j]
  }

  /** In address order. */
  ghost predicate Ordered(free: seq<int>) {
    forall i, j {:trigger Lt(free, i, j)} :: 0 <= i < j < |free| ==> Lt(free, i, j)
  }

  /** The list's node after i steps from base; it is a circle. */
  function Next(free: seq<int>, k: nat): int
    requires k < |free|
  {
    if k + 1 < |free| then free[k + 1] else free[0]
  }

  /** The free list from the static header `base`, whose size is 0. */
  ghost predicate Linked(mem: map<int, Header>, base: int, free: seq<int>) {
    && |free| > 0 && free[0] == base && Ordered(free)
    && (forall k :: 0 <= k < |free| ==> free[k] in mem && mem[free[k]].ptr == Next(free, k))
    && (forall k :: 0 <= k < |free| ==> if k == 0 then mem[free[k]].size == 0 else mem[free[k]].size > 0)
  }

  /** Where block k ends and where the next one starts. */
  function Gap(mem: map<int, Header>, free: seq<int>, k: nat): int
    requires k + 1 < |free| && free[k] in mem
  {
    free[k + 1] - (free[k] + mem[free[k]].size)
  }

  /** No two neighbours touch: everything that can be merged has been. */
  ghost predicate Coalesced(mem: map<int, Header>, free: seq<int>) {
    forall k :: 0 <= k < |free| - 1 ==> free[k] in mem && Gap(mem, free, k) > 0
  }

  // ---- who owns which unit ----

  ghost predicate Within(a: int, n: int, u: int) {
    a <= u < a + n
  }

  /** Each unit obtained from sbrk belongs to exactly one of the blocks, and the
      blocks have no other units. */
  ghost predicate Tiled(mem: map<int, Header>, base: int, blocks: set<int>, owner: map<int, int>) {
    && (forall a :: a in blocks ==> a in mem && mem[a].size > 0)
    && (forall u :: u in owner ==> base < u && owner[u] in blocks && Within(owner[u], mem[owner[u]].size, u))
    && (forall a, u {:trigger Within(a, mem[a].size, u)} :: a in blocks && Within(a, mem[a].size, u) ==>
          u in owner && owner[u] == a)
  }

  ghost function FreeSet(free: seq<int>): set<int> {
    set k | 1 <= k < |free| :: free[k]
  }

  ghost function Blocks(free: seq<int>, live: map<int, int>): set<int> {
    FreeSet(free) + live.Keys
  }

  lemma Separate(mem: map<int, Header>, base: int, blocks: set<int>, owner: map<int, int>, a: int, b: int)
    requires Tiled(mem, base, blocks, owner) && a in blocks && b in blocks && a < b
    ensures a + mem[a].size <= b
  {
    assert Within(b, mem[b].size, b);
    assert !Within(a, mem[a].size, b);
  }

  lemma AboveBase(mem: map<int, Header>, base: int, blocks: set<int>, owner: map<int, int>, a: int)
    requires Tiled(mem, base, blocks, owner) && a in blocks
    ensures base < a
  {
    assert Within(a, mem[a].size, a);
  }

  ghost function MergedOwner(owner: map<int, int>, a: int, b: int): map<int, int> {
    map u | u in owner :: if owner[u] == b then a else owner[u]
  }

  /** Two touching blocks become one. */
  lemma MergeTiles(mem: map<int, Header>, base: int, blocks: set<int>, owner: map<int, int>, a: int, b: int, ptr: int)
    requires Tiled(mem, base, blocks, owner) && a in blocks && b in blocks && a + mem[a].size == b
    ensures Tiled(mem[a := Header(ptr, mem[a].size + mem[b].size)], base, blocks - {b}, MergedOwner(owner, a, b))
  {
    var mem' := mem[a := Header(ptr, mem[a].size + mem[b].size)];
    var owner' := MergedOwner(owner, a, b);
    forall c, u | c in blocks - {b} && Within(c, mem'[c].size, u) ensures u in owner' && owner'[u] == c {
      if c == a {
        assert Within(a, mem[a].size, u) || Within(b, mem[b].size, u);
      } else {
        assert Within(c, mem[c].size, u);
      }
    }
    forall u | u in owner' ensures base < u && owner'[u] in blocks - {b} && Within(owner'[u], mem'[owner'[u]].size, u) {
      assert Within(owner[u], mem[owner[u]].size, u);
    }
  }

  /** A block gives its last n units to a new block. */
  lemma SplitTiles(mem: map<int, Header>, base: int, blocks: set<int>, owner: map<int, int>, a: int, n: int)
    requires Tiled(mem, base, blocks, owner) && a in blocks && 0 < n < mem[a].size
    ensures var q := a + mem[a].size - n;
            && q !in blocks && q != a
            && Tiled(mem[a := mem[a].(size := mem[a].size - n)][q := Header(0, n)], base, blocks + {q},
                     SplitOwner(owner, q, n))
  {
    var q := a + mem[a].size - n;
    assert Within(a, mem[a].size, q);
    assert q in blocks ==> Within(q, mem[q].size, q);
    var mem' := mem[a := mem[a].(size := mem[a].size - n)][q := Header(0, n)];
    var owner' := SplitOwner(owner, q, n);
    forall c, u | c in blocks + {q} && Within(c, mem'[c].size, u) ensures u in owner' && owner'[u] == c {
      if c == q || c == a {
        assert Within(a, mem[a].size, u);
      } else {
        assert Within(c, mem[c].size, u);
        assert !Within(a, mem[a].size, u);
      }
    }
    forall u | u in owner' ensures base < u && owner'[u] in blocks + {q} && Within(owner'[u], mem'[owner'[u]].size, u) {
      assert Within(owner[u], mem[owner[u]].size, u);
    }
  }

  ghost function Fresh(a: int, n: int): map<int, int> {
    map u: int | a <= u < a + n && Within(a, n, u) :: a
  }

  /** Fresh units from sbrk make a block of their own. */
  lemma AddTile(mem: map<int, Header>, base: int, blocks: set<int>, owner: map<int, int>, a: int, n: int, h: Header)
    requires Tiled(mem, base, blocks, owner) && n > 0 && h.size == n && base < a
    requires forall u :: u in owner ==> u < a
    ensures a !in blocks
    ensures Tiled(mem[a := h], base, blocks + {a}, owner + Fresh(a, n))
  {
    assert a in blocks ==> Within(a, mem[a].size, a);
    var mem' := mem[a := h];
    var owner' := owner + Fresh(a, n);
    forall c, u | c in blocks + {a} && Within(c, mem'[c].size, u) ensures u in owner' && owner'[u] == c {
      if c != a { assert Within(c, mem[c].size, u); }
    }
    forall u | u in owner' ensures base < u && owner'[u] in blocks + {a} && Within(owner'[u], mem'[owner'[u]].size, u) {
      if u < a { assert Within(owner[u], mem[owner[u]].size, u); }
    }
  }

  lemma SameSizeTiles(mem: map<int, Header>, mem': map<int, Header>, base: int, blocks: set<int>, owner: map<int, int>)
    requires Tiled(mem, base, blocks, owner)
    requires forall a :: a in blocks ==> a in mem' && mem'[a].size == mem[a].size
    ensures Tiled(mem', base, blocks, owner)
  {
    forall c, u | c in blocks && Within(c, mem'[c].size, u) ensures u in owner && owner[u] == c {
      assert Within(c, mem[c].size, u);
    }
  }

  // ---- list surgery ----

  lemma InsertOrder(free: seq<int>, bp: int, k: nat)
    requires Ordered(free) && k < |free| && free[k] < bp && (k + 1 < |free| ==> bp < free[k + 1])
    ensures var free' := free[..k+1] + [bp] + free[k+1..];
            && Ordered(free')
            && (forall m :: 0 <= m < |free'| && m != k + 1 ==> free'[m] != bp)
            && (forall m :: 0 <= m < |free'| && m != k ==> free'[m] != free[k])
            && bp !in free
  {
    var free' := free[..k+1] + [bp] + free[k+1..];
    forall i, j | 0 <= i < j < |free'| ensures Lt(free', i, j) {
      var i', j' := if i <= k then i else i - 1, if j <= k then j else j - 1;
      assert i' < j' ==> Lt(free, i', j');
      assert i' < k ==> Lt(free, i', k);
      assert k + 1 < j' ==> Lt(free, k + 1, j');
    }
    forall m | 0 <= m < |free'| ensures (m != k + 1 ==> free'[m] != bp) && (m != k ==> free'[m] != free[k]) {
      assert m < k + 1 ==> Lt(free', m, k + 1);
      assert m > k + 1 ==> Lt(free', k + 1, m);
      assert m < k ==> Lt(free', m, k);
      assert m > k ==> Lt(free', k, m);
    }
    forall m | 0 <= m < |free| ensures free[m] != bp {
      assert m < k ==> Lt(free, m, k);
      assert m > k + 1 ==> Lt(free, k + 1, m);
    }
  }

  lemma InsertGaps(mem: map<int, Header>, free: seq<int>, bp: int, k: nat)
    requires k < |free| && bp in mem && bp !in free && forall m :: 0 <= m < |free| ==> free[m] in mem
    ensures var free' := free[..k+1] + [bp] + free[k+1..];
            var mem' := mem[bp := mem[bp].(ptr := mem[free[k]].ptr)][free[k] := mem[free[k]].(ptr := bp)];
            forall m :: 0 <= m < |free| - 1 && m != k ==>
              Gap(mem', free', if m < k then m else m + 1) == Gap(mem, free, m)
  {
  }

  /** bp goes in after node k. */
  lemma InsertNode(mem: map<int, Header>, base: int, free: seq<int>, bp: int, k: nat)
    requires Linked(mem, base, free) && bp in mem && mem[bp].size > 0 && k < |free|
    requires free[k] < bp && (k + 1 < |free| ==> bp < free[k + 1])
    ensures var free' := free[..k+1] + [bp] + free[k+1..];
            var mem' := mem[bp := mem[bp].(ptr := mem[free[k]].ptr)][free[k] := mem[free[k]].(ptr := bp)];
            && Linked(mem', base, free')
            && (forall m :: 0 <= m < |free| - 1 && m != k ==>
                  Gap(mem', free', if m < k then m else m + 1) == Gap(mem, free, m))
  {
    hide Ordered, Gap;
    InsertOrder(free, bp, k);
    InsertGaps(mem, free, bp, k);
    var free' := free[..k+1] + [bp] + free[k+1..];
    var mem' := mem[bp := mem[bp].(ptr := mem[free[k]].ptr)][free[k] := mem[free[k]].(ptr := bp)];
    forall m | 0 <= m < |free'| ensures free'[m] in mem' && mem'[free'[m]].ptr == Next(free', m) {
      assert m != k + 1 ==> free'[m] == free[if m <= k then m else m - 1];
    }
  }

  lemma RemoveOrder(free: seq<int>, k: nat)
    requires Ordered(free) && k + 1 < |free|
    ensures var free' := free[..k+1] + free[k+2..];
            && Ordered(free')
            && (forall m :: 0 <= m < |free'| && m != k ==> free'[m] != free[k])
            && (forall m :: 0 <= m < |free| && m != k ==> free[m] != free[k])
  {
    var free' := free[..k+1] + free[k+2..];
    forall i, j | 0 <= i < j < |free'| ensures Lt(free', i, j) {
      assert Lt(free, if i <= k then i else i + 1, if j <= k then j else j + 1);
    }
    OrderedDistinct(free, k);
  }

  lemma RemoveGaps(mem: map<int, Header>, free: seq<int>, k: nat, size: int)
    requires k + 1 < |free| && forall m :: 0 <= m < |free| ==> free[m] in mem
    requires forall m :: 0 <= m < |free| && m != k ==> free[m] != free[k]
    ensures var free' := free[..k+1] + free[k+2..];
            var mem' := mem[free[k] := Header(mem[free[k + 1]].ptr, size)];
            && (forall m :: 0 <= m < |free'| - 1 && m != k ==>
                  Gap(mem', free', m) == Gap(mem, free, if m < k then m else m + 1))
            && (k + 2 < |free| ==> Gap(mem', free', k) == free[k + 2] - (free[k] + size))
  {
  }

  /** Node k + 1 leaves the list. */
  lemma RemoveNode(mem: map<int, Header>, base: int, free: seq<int>, k: nat, size: int)
    requires Linked(mem, base, free) && k + 1 < |free| && (if k == 0 then size == 0 else size > 0)
    ensures var free' := free[..k+1] + free[k+2..];
            var mem' := mem[free[k] := Header(mem[free[k + 1]].ptr, size)];
            && Linked(mem', base, free')
            && (forall m :: 0 <= m < |free'| - 1 && m != k ==>
                  Gap(mem', free', m) == Gap(mem, free, if m < k then m else m + 1))
            && (k + 2 < |free| ==> Gap(mem', free', k) == free[k + 2] - (free[k] + size))
  {
    hide Ordered, Gap;
    RemoveOrder(free, k);
    RemoveGaps(mem, free, k, size);
    var free' := free[..k+1] + free[k+2..];
    var mem' := mem[free[k] := Header(mem[free[k + 1]].ptr, size)];
    forall m | 0 <= m < |free'| ensures free'[m] in mem' && mem'[free'[m]].ptr == Next(free', m) {
      assert free'[m] == free[if m <= k then m else m + 1];
    }
  }

  /** Everything the allocator keeps true: the list, the tiling, and the live
      blocks' headers as malloc left them. */
  ghost predicate Sound(mem: map<int, Header>, base: int, free: seq<int>, live: map<int, int>, owner: map<int, int>) {
    && Linked(mem, base, free) && Coalesced(mem, free)
    && Tiled(mem, base, Blocks(free, live), owner)
    && base !in live && FreeSet(free) !! live.Keys
    && (forall a :: a in live ==> a in mem && mem[a].size == live[a])
  }

  /** Where free's search stops: the last list node below bp. */
  ghost predicate Before(free: seq<int>, k: int, bp: int) {
    0 <= k < |free| && free[k] < bp && (k + 1 < |free| ==> bp < free[k + 1])
  }

  lemma {:induction false} BeforeExists(mem: map<int, Header>, base: int, free: seq<int>, bp: int, n: nat)
    returns (k: nat)
    requires Ordered(free) && 0 < n <= |free| && free[0] < bp && (n < |free| ==> bp < free[n]) && bp !in free
    ensures Before(free, k, bp)
  {
    if free[n - 1] < bp { k := n - 1; } else { k := BeforeExists(mem, base, free, bp, n - 1); }
  }

  /** Sound, but for nodes from lo up to hi, which may touch their successors. */
  ghost predicate Loose(mem: map<int, Header>, base: int, free: seq<int>, live: map<int, int>, owner: map<int, int>,
                        lo: int, hi: int) {
    && Linked(mem, base, free)
    && (forall k :: 0 <= k < |free| - 1 ==> Gap(mem, free, k) >= 0 && (lo <= k < hi || Gap(mem, free, k) > 0))
    && Tiled(mem, base, Blocks(free, live), owner)
    && base !in live && FreeSet(free) !! live.Keys
    && (forall a :: a in live ==> a in mem && mem[a].size == live[a])
  }

  lemma LooseIsSound(mem: map<int, Header>, base: int, free: seq<int>, live: map<int, int>, owner: map<int, int>,
                     lo: int, hi: int)
    requires Loose(mem, base, free, live, owner, lo, hi)
    requires forall k :: lo <= k < hi && 0 <= k < |free| - 1 ==> Gap(mem, free, k) > 0
    ensures Sound(mem, base, free, live, owner)
  {
  }

  lemma FreeSetInsert(free: seq<int>, bp: int, k: nat)
    requires k < |free|
    ensures FreeSet(free[..k+1] + [bp] + free[k+1..]) == FreeSet(free) + {bp}
  {
    var free' := free[..k+1] + [bp] + free[k+1..];
    forall a | a in FreeSet(free) + {bp} ensures a in FreeSet(free') {
      if a in FreeSet(free) {
        var m :| 1 <= m < |free| && free[m] == a;
        assert free'[if m <= k then m else m + 1] == a;
      } else {
        assert free'[k + 1] == a;
      }
    }
  }

  lemma FreeSetRemove(free: seq<int>, k: nat)
    requires Ordered(free) && k + 1 < |free|
    ensures FreeSet(free[..k+1] + free[k+2..]) == FreeSet(free) - {free[k + 1]}
  {
    var free' := free[..k+1] + free[k+2..];
    forall a | a in FreeSet(free) - {free[k + 1]} ensures a in FreeSet(free') {
      var m :| 1 <= m < |free| && free[m] == a;
      assert free'[if m <= k then m else m - 1] == a;
    }
    forall a | a in FreeSet(free') ensures a in FreeSet(free) - {free[k + 1]} {
      var m :| 1 <= m < |free'| && free'[m] == a;
      assert free[if m <= k then m else m + 1] == a;
      assert m <= k ==> Lt(free, m, k + 1);
      assert m > k ==> Lt(free, k + 1, m + 1);
    }
  }

  /** Live block bp becomes a free block after node k. */
  lemma LooseInsert(mem: map<int, Header>, base: int, free: seq<int>, live: map<int, int>, owner: map<int, int>,
                    bp: int, k: nat)
    requires Sound(mem, base, free, live, owner) && bp in live && Before(free, k, bp)
    ensures var mem' := mem[bp := mem[bp].(ptr := mem[free[k]].ptr)][free[k] := mem[free[k]].(ptr := bp)];
            Loose(mem', base, free[..k+1] + [bp] + free[k+1..], live - {bp}, owner, k, k + 2)
  {
    hide Linked, Tiled, FreeSet, Ordered;
    NotListed(mem, base, free, live, owner, bp);
    var p := free[k];
    var free' := free[..k+1] + [bp] + free[k+1..];
    var mem' := mem[bp := mem[bp].(ptr := mem[p].ptr)][p := mem[p].(ptr := bp)];
    ListFacts(mem, base, free, live, owner, k, bp);
    InsertNode(mem, base, free, bp, k);
    FreeSetInsert(free, bp, k);
    assert Blocks(free', live - {bp}) == Blocks(free, live);
    SameSizeTiles(mem, mem', base, Blocks(free, live), owner);
    if k > 0 { Separate(mem, base, Blocks(free, live), owner, p, bp); }
    if k + 1 < |free| { Separate(mem, base, Blocks(free, live), owner, bp, free[k + 1]); }
    forall m | 0 <= m < |free'| - 1 ensures Gap(mem', free', m) >= 0 && (k <= m < k + 2 || Gap(mem', free', m) > 0) {
      if m < k { assert Gap(mem, free, m) > 0; } else if m > k + 1 { assert Gap(mem, free, m - 1) > 0; }
    }
  }

  lemma ListFacts(mem: map<int, Header>, base: int, free: seq<int>, live: map<int, int>, owner: map<int, int>, k: nat,
                  bp: int)
    requires Sound(mem, base, free, live, owner) && k < |free| && bp in live
    ensures mem[bp].size > 0 && mem[base].size == 0 && (k > 0 ==> free[k] in FreeSet(free))
            && (k + 1 < |free| ==> free[k + 1] in FreeSet(free))
    ensures forall a :: a in Blocks(free, live) ==> a in mem
  {
    assert bp in Blocks(free, live);
  }

  /** Free nodes k and k + 1 touch and become one. */
  lemma LooseMerge(mem: map<int, Header>, base: int, free: seq<int>, live: map<int, int>, owner: map<int, int>, k: nat,
                   lo: int)
    requires Loose(mem, base, free, live, owner, lo, k + 1) && 0 < k && k + 1 < |free| && Gap(mem, free, k) == 0
    ensures var a, b := free[k], free[k + 1];
            var mem' := mem[a := Header(mem[b].ptr, mem[a].size + mem[b].size)];
            var free' := free[..k+1] + free[k+2..];
            && b !in live && a !in live
            && Loose(mem', base, free', live, MergedOwner(owner, a, b), lo, k)
            && forall m :: 0 <= m < k ==> Gap(mem', free', m) == Gap(mem, free, m)
  {
    hide Tiled, Linked, Ordered, FreeSet;
    var a, b := free[k], free[k + 1];
    MergeFacts(mem, base, free, k);
    var size := mem[a].size + mem[b].size;
    var free' := free[..k+1] + free[k+2..];
    RemoveNode(mem, base, free, k, size);
    FreeSetRemove(free, k);
    assert Blocks(free', live) == Blocks(free, live) - {b};
    MergeTiles(mem, base, Blocks(free, live), owner, a, b, mem[b].ptr);
  }

  lemma MergeFacts(mem: map<int, Header>, base: int, free: seq<int>, k: nat)
    requires Linked(mem, base, free) && 0 < k && k + 1 < |free|
    ensures free[k] in FreeSet(free) && free[k + 1] in FreeSet(free) && Ordered(free) && free[k] != free[k + 1]
    ensures free[k] in mem && free[k + 1] in mem && mem[free[k]].size > 0 && mem[free[k + 1]].size > 0
  {
    assert Lt(free, k, k + 1);
  }

  /** The headers after free has linked bp to what follows it... */
  function LinkUp(mem: map<int, Header>, p: int, bp: int): (m: map<int, Header>)
    requires p in mem && bp in mem && mem[p].ptr in mem
  {
    var nx := mem[p].ptr;
    if bp + mem[bp].size == nx then mem[bp := Header(mem[nx].ptr, mem[bp].size + mem[nx].size)]
    else mem[bp := mem[bp].(ptr := nx)]
  }

  /** ... and then p to bp. */
  function LinkDown(mem: map<int, Header>, p: int, bp: int): (m: map<int, Header>)
    requires p in mem && bp in mem
  {
    if p + mem[p].size == bp then mem[p := Header(mem[bp].ptr, mem[p].size + mem[bp].size)]
    else mem[p := mem[p].(ptr := bp)]
  }

  /** Freeing a live block leaves a sound, fully coalesced list over the same
      units; the block is now part of node p or of p's successor. */
  lemma FreeSound(mem: map<int, Header>, base: int, free: seq<int>, live: map<int, int>, owner: map<int, int>, bp: int,
                  k: nat)
    returns (free': seq<int>, owner': map<int, int>)
    requires Sound(mem, base, free, live, owner) && bp in live && Before(free, k, bp)
    ensures free[k] in mem && bp in mem && mem[free[k]].ptr in mem
    ensures var p := free[k];
            var mem' := LinkDown(LinkUp(mem, p, bp), p, bp);
            && Sound(mem', base, free', live - {bp}, owner')
            && owner'.Keys == owner.Keys && p in free'
            && Fits(mem', free', p, live[bp])
  {
    hide Linked, Coalesced, Tiled, FreeSet, Ordered;
    var p := free[k];
    FreeFacts(mem, base, free, live, owner, bp, k);
    LooseInsert(mem, base, free, live, owner, bp, k);
    var nx := mem[p].ptr;
    var mem1 := mem[bp := mem[bp].(ptr := nx)][p := mem[p].(ptr := bp)];
    var free1 := free[..k+1] + [bp] + free[k+1..];
    var mem2, free2, owner2 := mem1, free1, owner;
    if bp + mem[bp].size == nx {
      assert free1[k + 2] == nx && Gap(mem1, free1, k + 1) == 0;
      LooseMerge(mem1, base, free1, live - {bp}, owner, k + 1, k);
      mem2 := mem1[bp := Header(mem1[nx].ptr, mem1[bp].size + mem1[nx].size)];
      free2 := free1[..k+2] + free1[k+3..];
      owner2 := MergedOwner(owner, bp, nx);
    }
    var mem3 := LinkDown(LinkUp(mem, p, bp), p, bp);
    assert Gap(mem2, free2, k) == bp - (p + mem[p].size);
    if p + mem[p].size == bp {
      LooseMerge(mem2, base, free2, live - {bp}, owner2, k, k);
      free' := free2[..k+1] + free2[k+2..];
      owner' := MergedOwner(owner2, p, bp);
      assert mem3 == mem2[p := Header(mem2[bp].ptr, mem2[p].size + mem2[bp].size)];
      LooseIsSound(mem3, base, free', live - {bp}, owner', k, k);
      assert free'[k] == p && Holds(mem3, free', p, k, live[bp]);
    } else {
      free', owner' := free2, owner2;
      assert mem3 == mem2;
      LooseIsSound(mem3, base, free', live - {bp}, owner', k, k + 1);
      assert free'[k] == p && Holds(mem3, free', p, k + 1, live[bp]);
    }
  }

  /** Node j is p or p's successor and has at least n units. */
  ghost predicate Holds(mem: map<int, Header>, free: seq<int>, p: int, j: int, n: int) {
    && 0 <= j < |free| && free[j] in mem && mem[free[j]].size >= n
    && (free[j] == p || (j > 0 && free[j - 1] == p))
  }

  ghost predicate Fits(mem: map<int, Header>, free: seq<int>, p: int, n: int) {
    exists j :: Holds(mem, free, p, j, n)
  }

  lemma FitsLess(mem: map<int, Header>, free: seq<int>, p: int, n: int, m: int)
    requires Fits(mem, free, p, n) && m <= n
    ensures Fits(mem, free, p, m)
  {
    var j :| Holds(mem, free, p, j, n);
    assert Holds(mem, free, p, j, m);
  }

  // ---- malloc's two ways to take a block ----

  /** Node q is taken whole. */
  lemma TakeSound(mem: map<int, Header>, base: int, free: seq<int>, live: map<int, int>, owner: map<int, int>, q: nat)
    requires Sound(mem, base, free, live, owner) && 0 < q < |free|
    ensures free[q] !in live && free[q] in mem && free[q - 1] in mem && free[q - 1] != free[q]
    ensures Sound(mem[free[q - 1] := mem[free[q - 1]].(ptr := mem[free[q]].ptr)], base, free[..q] + free[q+1..],
                  live[free[q] := mem[free[q]].size], owner)
  {
    hide Tiled, Linked, Ordered, FreeSet;
    TakeFacts(mem, base, free, live, owner, q);
    var a, b := free[q - 1], free[q];
    var mem' := mem[a := mem[a].(ptr := mem[b].ptr)];
    var free', live' := free[..q] + free[q+1..], live[b := mem[b].size];
    RemoveNode(mem, base, free, q - 1, mem[a].size);
    FreeSetRemove(free, q - 1);
    assert Blocks(free', live') == Blocks(free, live);
    SameSizeTiles(mem, mem', base, Blocks(free, live), owner);
    forall k | 0 <= k < |free'| - 1 ensures free'[k] in mem' && Gap(mem', free', k) > 0 {
      InMem(mem', base, free', k);
      if k < q - 1 { assert Gap(mem, free, k) > 0; }
      else if k > q - 1 { assert Gap(mem, free, k + 1) > 0; }
      else { assert Gap(mem, free, q - 1) > 0 && Gap(mem, free, q) > 0; }
    }
  }

  lemma InMem(mem: map<int, Header>, base: int, free: seq<int>, k: nat)
    requires Linked(mem, base, free) && k < |free|
    ensures free[k] in mem
  {
  }

  lemma TakeFacts(mem: map<int, Header>, base: int, free: seq<int>, live: map<int, int>, owner: map<int, int>, q: nat)
    requires Sound(mem, base, free, live, owner) && 0 < q < |free|
    ensures free[q] in FreeSet(free) && free[q] !in live && base < free[q] && Ordered(free)
    ensures free[q] in mem && free[q - 1] in mem && free[q - 1] < free[q] && mem[free[q]].size > 0
    ensures if q == 1 then mem[free[q - 1]].size == 0 else mem[free[q - 1]].size > 0
    ensures free[q - 1] !in live && base == free[0] <= free[q - 1]
    ensures forall a :: a in Blocks(free, live) ==> a in mem
    ensures mem[free[q - 1]].ptr == free[q]
  {
    assert Lt(free, q - 1, q) && Lt(free, 0, q);
    if q > 1 { assert free[q - 1] in FreeSet(free) && Lt(free, 0, q - 1); }
  }

  /** Node q keeps its front and gives up its last n units. */
  lemma SplitSound(mem: map<int, Header>, base: int, free: seq<int>, live: map<int, int>, owner: map<int, int>, q: nat,
                   n: int)
    requires Sound(mem, base, free, live, owner) && 0 < q < |free| && 0 < n < mem[free[q]].size
    ensures var a := free[q];
            var b := a + mem[a].size - n;
            && b !in live && b != a
            && Sound(mem[a := mem[a].(size := mem[a].size - n)][b := Header(0, n)], base, free, live[b := n],
                     SplitOwner(owner, b, n))
  {
    hide Linked, Tiled, Ordered, FreeSet, Coalesced;
    var a := free[q];
    TakeFacts(mem, base, free, live, owner, q);
    var b := a + mem[a].size - n;
    SplitTiles(mem, base, Blocks(free, live), owner, a, n);
    assert Blocks(free, live[b := n]) == Blocks(free, live) + {b};
    InFreeSet(free, b);
    ShrinkNode(mem, base, free, q, n, b);
  }

  lemma InFreeSet(free: seq<int>, a: int)
    ensures a !in FreeSet(free) && |free| > 0 && a != free[0] ==> a !in free
  {
    forall k | 0 <= k < |free| && a !in FreeSet(free) && a != free[0] ensures free[k] != a {
      if k > 0 { assert free[k] in FreeSet(free); }
    }
  }

  lemma ShrinkNode(mem: map<int, Header>, base: int, free: seq<int>, q: nat, n: int, b: int)
    requires Linked(mem, base, free) && Coalesced(mem, free) && 0 < q < |free| && 0 < n < mem[free[q]].size
             && b !in free
    ensures var mem' := mem[free[q] := mem[free[q]].(size := mem[free[q]].size - n)][b := Header(0, n)];
            Linked(mem', base, free) && Coalesced(mem', free)
  {
    hide Ordered;
    OrderedDistinct(free, q);
    var mem' := mem[free[q] := mem[free[q]].(size := mem[free[q]].size - n)][b := Header(0, n)];
    forall k | 0 <= k < |free| - 1 ensures free[k] in mem' && Gap(mem', free, k) > 0 { assert Gap(mem, free, k) > 0; }
  }

  lemma OrderedDistinct(free: seq<int>, q: nat)
    requires Ordered(free) && q < |free|
    ensures forall k :: 0 <= k < |free| && k != q ==> free[k] != free[q]
  {
    forall k | 0 <= k < |free| && k != q ensures free[k] != free[q] {
      assert k < q ==> Lt(free, k, q);
      assert k > q ==> Lt(free, q, k);
    }
  }

  ghost function SplitOwner(owner: map<int, int>, b: int, n: int): map<int, int> {
    map u | u in owner :: if Within(b, n, u) then b else owner[u]
  }

  lemma FreeFacts(mem: map<int, Header>, base: int, free: seq<int>, live: map<int, int>, owner: map<int, int>, bp: int,
                  k: nat)
    requires Sound(mem, base, free, live, owner) && bp in live && Before(free, k, bp)
    ensures free[k] in mem && bp in mem && free[k] != bp && mem[bp].size == live[bp] > 0
    ensures mem[free[k]].ptr in mem && mem[free[k]].ptr == Next(free, k)
    ensures k + 1 == |free| ==> bp + mem[bp].size != mem[free[k]].ptr
    ensures free[k] + mem[free[k]].size == bp ==> k > 0
    ensures mem[free[k]].ptr != bp && mem[free[k]].size >= 0 && mem[mem[free[k]].ptr].size >= 0 && free[k] >= base
    ensures k + 1 < |free| ==> mem[free[k]].ptr != free[k]
  {
    NotListed(mem, base, free, live, owner, bp);
    assert bp in Blocks(free, live);
    if k + 1 < |free| { assert Lt(free, k, k + 1); }
    if k > 0 { assert Lt(free, 0, k); }
  }

  class Allocator {
    const base: int
    var mem: map<int, Header>
    var freep: int                   // 0 until the first malloc
    var brk: int                     // memory below it has been handed out

    ghost var free: seq<int>
    ghost var live: map<int, int>    // blocks in use, with their sizes
    ghost var owner: map<int, int>   // every unit obtained from sbrk, with its block

    ghost predicate Valid()
      reads this
    {
      && 0 < base < brk && (forall u :: u in owner ==> u < brk)
      && (if freep == 0 then live == map[] && owner == map[] else freep in free && Sound(mem, base, free, live, owner))
    }

    constructor (base: int, brk: int)
      requires 0 < base < brk
      ensures Valid() && this.base == base && this.brk == brk && freep == 0 && live == map[] && owner == map[]
    {
      this.base, this.brk := base, brk;
      mem, freep, free, live, owner := map[], 0, [], map[], map[];
    }

    /** free's search, from wherever freep points. */
    method Search(bp: int) returns (p: int, ghost k: nat)
      requires Valid() && bp in live
      ensures Before(free, k, bp) && p == free[k]
    {
      NotListed(mem, base, free, live, owner, bp);
      k := BeforeExists(mem, base, free, bp, |free|);
      p := freep;
      ghost var j :| 0 <= j < |free| && free[j] == freep;
      while !(bp > p && bp < mem[p].ptr)
        invariant 0 <= j < |free| && p == free[j]
        decreases if j <= k then k - j else k - j + |free|
      {
        SearchStep(mem, base, free, bp, j, k);
        if p >= mem[p].ptr && (bp > p || bp < mem[p].ptr) { break; }
        p := mem[p].ptr;
        j := if j + 1 < |free| then j + 1 else 0;
      }
      SearchStep(mem, base, free, bp, j, k);
    }

    /** free of a pointer malloc returned: its block goes back, merged with any
        free neighbour it touches, and nothing else changes hands. */
    method Free(ap: int)
      requires Valid() && ap - 1 in live
      modifies this`mem, this`freep, this`free, this`live, this`owner
      ensures Valid() && freep != 0
      ensures live == old(live) - {ap - 1} && owner.Keys == old(owner.Keys)
      ensures Fits(mem, free, freep, old(live)[ap - 1])
    {
      hide Linked, Coalesced, Tiled, FreeSet, Ordered;
      var bp := ap - 1;
      var p;
      ghost var k;
      p, k := Search(bp);
      ghost var free', owner' := FreeSound(mem, base, free, live, owner, bp, k);
      FreeFacts(mem, base, free, live, owner, bp, k);
      if bp + mem[bp].size == mem[p].ptr {
        mem := mem[bp := Header(mem[mem[p].ptr].ptr, mem[bp].size + mem[mem[p].ptr].size)];
      } else {
        mem := mem[bp := mem[bp].(ptr := mem[p].ptr)];
      }
      if p + mem[p].size == bp {
        mem := mem[p := Header(mem[bp].ptr, mem[p].size + mem[bp].size)];
      } else {
        mem := mem[p := mem[p].(ptr := bp)];
      }
      freep := p;
      free, owner, live := free', owner', live - {bp};
    }

    /** morecore: at least MINUNITS units from sbrk, freed into the list. grant
        is what sbrk returns: -1, or memory beyond all it returned before. */
    method Morecore(nu: int, grant: int) returns (ok: bool)
      requires Valid() && freep != 0 && nu > 0 && (grant == -1 || grant >= brk)
      modifies this
      ensures ok <==> grant != -1
      ensures Valid() && freep != 0 && live == old(live)
      ensures !ok ==>
                mem == old(mem) && free == old(free) && freep == old(freep) && owner == old(owner) && brk == old(brk)
      ensures ok ==> owner.Keys == old(owner.Keys) + Fresh(grant, AtLeast(nu)).Keys && Fits(mem, free, freep, nu)
    {
      hide Linked, Coalesced, Tiled, FreeSet, Ordered;
      var n := AtLeast(nu);
      if grant == -1 { return false; }
      ok := true;
      GrowSound(mem, base, free, live, owner, grant, n);
      mem := mem[grant := Header(0, n)];
      brk := grant + n;
      live := live[grant := n];
      owner := owner + Fresh(grant, n);
      Free(grant + 1);
      assert live == old(live);
      FitsLess(mem, free, freep, n, nu);
    }

    /** malloc. At most one call to sbrk is made, and only after every free block
        has been found too small; the block returned is the caller's alone and
        no other live block changes. */
    method Malloc(nbytes: nat, grant: int) returns (ap: int)
      requires Valid() && (grant == -1 || grant >= brk)
      modifies this
      ensures Valid() && freep != 0
      ensures ap == 0 <==> grant == -1 && old(TooSmall(Units(nbytes)))
      ensures ap == 0 ==> live == old(live) && owner.Keys == old(owner.Keys)
      ensures ap != 0 ==> ap - 1 !in old(live) && live == old(live)[ap - 1 := Units(nbytes)]
      ensures ap != 0 ==>
                var n := Units(nbytes);
                owner.Keys == old(owner.Keys) + (if old(TooSmall(n)) then Fresh(grant, AtLeast(n)).Keys else {})
    {
      var nunits := (nbytes + HEADER - 1) / HEADER + 1;
      if freep == 0 { Init(); }
      ap := Allocate(nunits, grant);
    }

    /** No block on the free list has n units. */
    ghost predicate TooSmall(n: int)
      reads this
    {
      freep == 0 || forall k :: 0 <= k < |free| && free[k] in mem ==> mem[free[k]].size < n
    }

    method Init()
      requires Valid() && freep == 0
      modifies this
      ensures Valid() && freep == base && free == [base] && mem == old(mem)[base := Header(base, 0)]
      ensures live == old(live) && owner == old(owner) && brk == old(brk)
    {
      mem := mem[base := Header(base, 0)];
      freep := base;
      free := [base];
      assert FreeSet(free) == {};
    }

    /** malloc's loop. */
    method Allocate(nunits: int, grant: int) returns (ap: int)
      requires Valid() && freep != 0 && nunits > 0 && (grant == -1 || grant >= brk)
      modifies this
      ensures Valid() && freep != 0
      ensures ap == 0 <==> grant == -1 && old(TooSmall(nunits))
      ensures ap == 0 ==> live == old(live) && owner.Keys == old(owner.Keys)
      ensures ap != 0 ==> ap - 1 !in old(live) && live == old(live)[ap - 1 := nunits]
      ensures ap != 0 ==>
                var n := nunits;
                owner.Keys == old(owner.Keys) + (if old(TooSmall(n)) then Fresh(grant, AtLeast(n)).Keys else {})
    {
      hide Linked, Coalesced, Tiled, FreeSet, Ordered, Fresh, AtLeast, Route;
      ghost var f :| 0 <= f < |free| && free[f] == freep;
      ghost var s, t, grown := 0, 0, false;
      RouteStep(mem, base, free, f, |free| - 1);
      var prevp, p := freep, mem[freep].ptr;
      while true
        invariant Valid() && freep != 0 && 0 <= f < |free| && freep == free[f] && 0 <= s < |free|
        invariant p == free[Route(free, f, s)] && prevp == free[Route(free, f, if s == 0 then |free| - 1 else s - 1)]
        invariant !grown ==>
                    mem == old(mem) && free == old(free) && owner == old(owner) && live == old(live) && brk == old(brk)
        invariant !grown ==>
                    forall v :: 0 <= v < s ==>
                      free[Route(free, f, v)] in mem && mem[free[Route(free, f, v)]].size < nunits
        invariant grown ==>
                    grant != -1 && old(TooSmall(nunits)) && live == old(live)
                    && owner.Keys == old(owner.Keys) + Fresh(grant, AtLeast(nunits)).Keys
        invariant grown ==>
                    s <= t < |free| && free[Route(free, f, t)] in mem && mem[free[Route(free, f, t)]].size >= nunits
        decreases if grown then 0 else 1, |free| - s
      {
        RouteStep(mem, base, free, f, s);
        if mem[p].size >= nunits {
          ap := Take(prevp, p, nunits, Route(free, f, s));
          return;
        }
        RouteEnd(mem, base, free, f, s);
        if p == freep {
          AllSmall(mem, free, f, nunits);
          var ok;
          ok, f, t := Refill(nunits, grant, f);
          if !ok { return 0; }
          p := freep;
          grown, s := true, 0;
          RouteStep(mem, base, free, f, |free| - 1);
        } else {
          s := s + 1;
        }
        prevp := p;
        p := mem[p].ptr;
      }
    }

    /** morecore, and where on the route from freep the new block is. */
    method Refill(nunits: int, grant: int, ghost f: nat) returns (ok: bool, ghost f': nat, ghost t: nat)
      requires Valid() && freep != 0 && nunits > 0 && (grant == -1 || grant >= brk) && f < |free| && freep == free[f]
      modifies this
      ensures Valid() && freep != 0 && live == old(live) && (ok <==> grant != -1)
      ensures !ok ==>
                mem == old(mem) && free == old(free) && freep == old(freep) && owner == old(owner) && brk == old(brk)
                && f' == f
      ensures ok ==> owner.Keys == old(owner.Keys) + Fresh(grant, AtLeast(nunits)).Keys
      ensures ok ==> f' < |free| && free[f'] == freep && t < |free| && Route(free, f', t) < |free|
      ensures ok ==> free[Route(free, f', t)] in mem && mem[free[Route(free, f', t)]].size >= nunits
    {
      hide Linked, Coalesced, Tiled, FreeSet, Ordered, Fresh, AtLeast;
      ok := Morecore(nunits, grant);
      f', t := f, 0;
      if ok { f', t := AfterGrow(mem, base, free, freep, nunits); }
    }

    /** Hand out nunits units of block p, whose list predecessor is prevp. */
    method Take(prevp: int, p: int, nunits: int, ghost q: nat) returns (ap: int)
      requires Valid() && freep != 0 && 0 < q < |free| && p == free[q] && prevp == free[q - 1] && p in mem
               && 0 < nunits <= mem[p].size
      modifies this`mem, this`freep, this`free, this`live, this`owner
      ensures Valid() && freep != 0 && ap != 0
      ensures ap - 1 !in old(live) && live == old(live)[ap - 1 := nunits] && owner.Keys == old(owner.Keys)
    {
      hide Linked, Coalesced, Tiled, FreeSet, Ordered;
      TakeFacts(mem, base, free, live, owner, q);
      var a := p;
      if mem[p].size == nunits {
        TakeSound(mem, base, free, live, owner, q);
        mem := mem[prevp := mem[prevp].(ptr := mem[p].ptr)];
        free := free[..q] + free[q+1..];
        assert free[q - 1] == prevp;
      } else {
        SplitSound(mem, base, free, live, owner, q, nunits);
        mem := mem[p := mem[p].(size := mem[p].size - nunits)];
        a := p + mem[p].size;
        mem := mem[a := Header(0, nunits)];
        owner := SplitOwner(owner, a, nunits);
      }
      live := live[a := nunits];
      freep := prevp;
      ap := a + 1;
    }
  }

  function AtLeast(nu: int): (n: int)
    ensures n >= nu && n >= MINUNITS && (n == nu || n == MINUNITS)
  {
    if nu < MINUNITS then MINUNITS else nu
  }

  /** The units malloc(nbytes) takes: the header and enough for nbytes. */
  function Units(nbytes: nat): (n: int)
    ensures nbytes <= (n - 1) * HEADER < nbytes + HEADER
  {
    (nbytes + HEADER - 1) / HEADER + 1
  }

  lemma GrowSound(mem: map<int, Header>, base: int, free: seq<int>, live: map<int, int>, owner: map<int, int>, a: int,
                  n: int)
    requires Sound(mem, base, free, live, owner) && n > 0 && base < a && forall u :: u in owner ==> u < a
    ensures a !in live && Sound(mem[a := Header(0, n)], base, free, live[a := n], owner + Fresh(a, n))
  {
    AddTile(mem, base, Blocks(free, live), owner, a, n, Header(0, n));
    InFreeSet(free, a);
    assert Blocks(free, live[a := n]) == Blocks(free, live) + {a};
    var mem' := mem[a := Header(0, n)];
    forall k | 0 <= k < |free| - 1 ensures free[k] in mem' && Gap(mem', free, k) > 0 { assert Gap(mem, free, k) > 0; }
  }

  /** The index of the list node s + 1 steps after node f. */
  ghost function Route(free: seq<int>, f: nat, s: nat): (k: nat)
    requires f < |free| && s < |free|
    ensures k < |free|
  {
    if f + 1 + s < |free| then f + 1 + s else f + 1 + s - |free|
  }

  lemma RouteStep(mem: map<int, Header>, base: int, free: seq<int>, f: nat, s: nat)
    requires Linked(mem, base, free) && f < |free| && s < |free|
    ensures Route(free, f, s) < |free| && free[Route(free, f, s)] in mem
    ensures mem[free[Route(free, f, s)]].ptr == free[Route(free, f, if s + 1 < |free| then s + 1 else 0)]
    ensures Route(free, f, |free| - 1) == f
    ensures mem[free[Route(free, f, s)]].size > 0 ==>
              0 < Route(free, f, s) && Route(free, f, s) - 1 == Route(free, f, if s == 0 then |free| - 1 else s - 1)
  {
  }

  lemma RouteEnd(mem: map<int, Header>, base: int, free: seq<int>, f: nat, s: nat)
    requires Linked(mem, base, free) && f < |free| && s < |free|
    ensures free[Route(free, f, s)] == free[f] <==> s == |free| - 1
  {
    OrderedDistinct(free, f);
  }

  lemma AllSmall(mem: map<int, Header>, free: seq<int>, f: nat, n: int)
    requires f < |free|
             && forall v :: 0 <= v < |free| ==> free[Route(free, f, v)] in mem && mem[free[Route(free, f, v)]].size < n
    ensures forall k :: 0 <= k < |free| ==> free[k] in mem && mem[free[k]].size < n
  {
    forall k | 0 <= k < |free| ensures free[k] in mem && mem[free[k]].size < n {
      var v := if k > f then k - f - 1 else k - f - 1 + |free|;
      assert Route(free, f, v) == k;
    }
  }

  /** After morecore the new block is the next one on the route, or, if it was
      merged into freep's own block, the last. */
  lemma AfterGrow(mem: map<int, Header>, base: int, free: seq<int>, p: int, n: int) returns (f: nat, t: nat)
    requires Linked(mem, base, free) && Fits(mem, free, p, n)
    ensures f < |free| && free[f] == p && t < |free|
    ensures free[Route(free, f, t)] in mem && mem[free[Route(free, f, t)]].size >= n
  {
    var j :| Holds(mem, free, p, j, n);
    if free[j] == p {
      f, t := j, |free| - 1;
    } else {
      f, t := j - 1, 0;
    }
  }

  lemma NotListed(mem: map<int, Header>, base: int, free: seq<int>, live: map<int, int>, owner: map<int, int>, bp: int)
    requires Sound(mem, base, free, live, owner) && bp in live
    ensures bp !in free && base < bp && Ordered(free) && |free| > 0 && free[0] == base
    ensures forall k :: 0 <= k < |free| ==> free[k] in mem
  {
    AboveBase(mem, base, Blocks(free, live), owner, bp);
    forall k | 0 <= k < |free| ensures free[k] != bp {
      if k >= 1 { assert free[k] in FreeSet(free); }
    }
  }

  /** Away from k neither way out of the search's loop is open. */
  lemma SearchStep(mem: map<int, Header>, base: int, free: seq<int>, bp: int, j: nat, k: nat)
    requires Linked(mem, base, free) && Before(free, k, bp) && j < |free|
    ensures j == k && k + 1 < |free| ==> bp > free[j] && bp < mem[free[j]].ptr
    ensures j == k && k + 1 == |free| ==> free[j] >= mem[free[j]].ptr && bp > free[j]
    ensures j != k ==> !(bp > free[j] && bp < mem[free[j]].ptr)
    ensures j != k ==> !(free[j] >= mem[free[j]].ptr && (bp > free[j] || bp < mem[free[j]].ptr))
  {
    if k > 0 { assert Lt(free, 0, k); }
    if j > 0 { assert Lt(free, 0, j); }
    if j + 1 < |free| { assert Lt(free, j, j + 1); }
    if k + 1 < j { assert Lt(free, k + 1, j); }
    if j + 1 < k { assert Lt(free, j + 1, k); }
  }
}
