/** Where the blocks of a disk are: in files, or free. What is free follows from the sizes
    of the files alone. */
module Space {
  import opened Blocks
  import opened FileContent
  import opened FsState
  import opened Sets

  /** The blocks a file of that size takes, with its indirect block. */
  function BlocksFor(size: nat): nat {
    NBlocks(size) + if NBlocks(size) > NDIRECT then 1 else 0
  }

  /** The blocks the first k files take. */
  function InUse(inode: seq<Inode>, k: nat): nat
    requires k <= |inode|
  {
    if k == 0 then 0 else InUse(inode, k - 1) + BlocksFor(inode[k - 1].size)
  }

  // ---- positions ----

  ghost function DataPos(i: nat, n: nat): (r: set<Pos>)
    ensures |r| == n && forall p :: p in r <==> p.Data? && p.ino == i && p.bn < n
  {
    if n == 0 then {} else DataPos(i, n - 1) + {Data(i, n - 1)}
  }

  ghost function FilePos(i: nat, size: nat): (r: set<Pos>)
    ensures |r| == BlocksFor(size) && forall p :: p in r ==> p.ino == i
  {
    DataPos(i, NBlocks(size)) + if NBlocks(size) > NDIRECT then {Indirect(i)} else {}
  }

  /** The positions that hold a block, in the first k files. */
  ghost function Held(inode: seq<Inode>, k: nat): set<Pos>
    requires k <= |inode|
  {
    if k == 0 then {} else Held(inode, k - 1) + FilePos(k - 1, inode[k - 1].size)
  }

  lemma {:induction false} HeldAt(inode: seq<Inode>, k: nat, p: Pos)
    requires k <= |inode|
    ensures p in Held(inode, k) <==> p.ino < k && p in FilePos(p.ino, inode[p.ino].size)
  {
    hide FilePos;
    if k > 0 { HeldAt(inode, k - 1, p); }
  }

  lemma {:induction false} HeldSize(inode: seq<Inode>, k: nat)
    requires k <= |inode|
    ensures |Held(inode, k)| == InUse(inode, k)
  {
    hide FilePos, BlocksFor;
    if k > 0 {
      HeldSize(inode, k - 1);
      var held, last := Held(inode, k - 1), FilePos(k - 1, inode[k - 1].size);
      forall p | p in held ensures p !in last { HeldAt(inode, k - 1, p); }
    }
  }

  lemma HeldIff(inode: seq<Inode>, data: seq<Block>, p: Pos)
    requires AllShaped(inode, |data|) && ValidPos(|inode|, p) && NoHoles(inode[p.ino], data)
    ensures p in FilePos(p.ino, inode[p.ino].size) <==> BlockAt(inode, data, p) != 0
  {
  }

  /** Owned blocks and held positions are in one-to-one correspondence. */
  lemma OwnedAreHeld(sb: Super, inode: seq<Inode>, data: seq<Block>, used: seq<bool>, owner: map<nat, Pos>)
    requires Own(sb, inode, data, used, owner) && forall i :: 0 <= i < |inode| ==> NoHoles(inode[i], data)
    ensures |owner.Keys| == InUse(inode, |inode|)
  {
    hide NoHoles;
    var f := b => if b in owner then owner[b] else Indirect(0);
    var held := Held(inode, |inode|);
    forall b, c | b in owner.Keys && c in owner.Keys && b != c ensures f(b) != f(c) {
      assert BlockAt(inode, data, owner[b]) == b && BlockAt(inode, data, owner[c]) == c;
    }
    forall p ensures p in held <==> exists b :: b in owner.Keys && f(b) == p {
      HeldAt(inode, |inode|, p);
      if p in held {
        assert p.Data? ==> p.bn < NBlocks(inode[p.ino].size);
        SizeBound(inode[p.ino], data);
        HeldIff(inode, data, p);
        assert f(BlockAt(inode, data, p)) == p;
      }
      if b :| b in owner.Keys && f(b) == p { HeldIff(inode, data, p); }
    }
    ImageSize(owner.Keys, f, held);
    HeldSize(inode, |inode|);
  }

  lemma SizeBound(ino: Inode, data: seq<Block>)
    requires NoHoles(ino, data)
    ensures NBlocks(ino.size) <= MAXFILE
  {
  }

  /** Conservation: metadata, free blocks and the blocks of the files are the disk. */
  lemma FreeIsRest(sb: Super, inode: seq<Inode>, data: seq<Block>, used: seq<bool>, owner: map<nat, Pos>)
    requires Own(sb, inode, data, used, owner) && forall i :: 0 <= i < |inode| ==> NoHoles(inode[i], data)
    ensures sb.nmeta + FreeCount(used) + InUse(inode, |inode|) == sb.size
  {
    hide NoHoles, InUse;
    OwnedAreHeld(sb, inode, data, used, owner);
    assert FreeSet(used) !! owner.Keys;
    assert FreeSet(used) + owner.Keys == Span(sb.nmeta, sb.size - sb.nmeta);
  }
}
