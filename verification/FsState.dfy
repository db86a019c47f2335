/** The part of a file system that fs.c's block layer maintains: inodes, the
    blocks they point to, and the allocation bitmap, with the relations every
    operation keeps. */
module FsState {
  import opened Blocks
  import opened Sets

  const NDIRECT := 12
  const MAXFILE := 140          // NDIRECT + NINDIRECT
  const BPB := 4096             // bitmap bits per block
  const IPB := 8                // inodes per block

  type Short = x: int | -0x8000 <= x < 0x8000

  /** The fields a dinode and an in-memory inode share. */
  datatype Inode = Inode(typ: Short, major: Short, minor: Short, nlink: Short, size: nat, addrs: seq<nat>)

  /** The super block; blocks below nmeta are the boot block, the super block,
      the log, the inodes and the bitmap. */
  datatype Super = Super(size: nat, ninodes: nat, nlog: nat, logstart: nat, inodestart: nat, bmapstart: nat, nmeta: nat)

  /** Log, inode blocks, bitmap blocks and data blocks follow one another. */
  predicate LayoutOk(sb: Super) {
    && sb.logstart + sb.nlog <= sb.inodestart && sb.inodestart + sb.ninodes / IPB + 1 <= sb.bmapstart
    && sb.bmapstart + sb.size / BPB + 1 <= sb.nmeta <= sb.size
  }

  function Iblock(sb: Super, i: nat): nat { i / IPB + sb.inodestart }

  function Bblock(sb: Super, b: nat): nat { b / BPB + sb.bmapstart }

  /** What the disk holds of a file system, the inodes unpacked and the bitmap as
      bits. */
  datatype OnDisk = OnDisk(dinode: seq<Inode>, used: seq<bool>, data: seq<Block>)

  /** Every block on which two states differ has been logged, and what has been
      logged on top of logged0 lies beyond the log. */
  ghost predicate Covered(sb: Super, d: OnDisk, logged0: set<nat>, d': OnDisk, logged: set<nat>) {
    && |d'.dinode| == |d.dinode| && |d'.used| == |d.used| && |d'.data| == |d.data|
    && (forall i :: 0 <= i < |d.dinode| && d'.dinode[i] != d.dinode[i] ==> Iblock(sb, i) in logged)
    && (forall b :: 0 <= b < |d.used| && d'.used[b] != d.used[b] ==> Bblock(sb, b) in logged)
    && (forall b :: 0 <= b < |d.data| && d'.data[b] != d.data[b] ==> b in logged && sb.nmeta <= b)
    && logged0 <= logged && (forall b :: b in logged && b !in logged0 ==> sb.inodestart <= b < |d.data|)
  }

  lemma CoveredTrans(sb: Super, d: OnDisk, logged: set<nat>, d1: OnDisk, logged1: set<nat>, d2: OnDisk,
                     logged2: set<nat>)
    requires Covered(sb, d, logged, d1, logged1) && Covered(sb, d1, logged1, d2, logged2)
    ensures Covered(sb, d, logged, d2, logged2)
  {
  }

  lemma CoveredNone(sb: Super, d: OnDisk, logged: set<nat>)
    ensures Covered(sb, d, logged, d, logged)
  {
  }

  /** Changing a block, an inode or a bit, and logging it. */
  lemma CoveredStore(sb: Super, d: OnDisk, logged0: set<nat>, d': OnDisk, logged: set<nat>, b: nat, x: Block)
    requires Covered(sb, d, logged0, d', logged) && LayoutOk(sb) && sb.nmeta <= b < |d'.data|
    ensures Covered(sb, d, logged0, d'.(data := d'.data[b := x]), logged + {b})
  {
  }

  lemma CoveredInode(sb: Super, d: OnDisk, logged0: set<nat>, d': OnDisk, logged: set<nat>, i: nat, ino: Inode)
    requires Covered(sb, d, logged0, d', logged) && LayoutOk(sb) && |d'.data| == sb.size
             && i < |d'.dinode| == sb.ninodes
    ensures Covered(sb, d, logged0, d'.(dinode := d'.dinode[i := ino]), logged + {Iblock(sb, i)})
  {
    IblockIn(sb, i);
  }

  lemma CoveredBit(sb: Super, d: OnDisk, logged0: set<nat>, d': OnDisk, logged: set<nat>, b: nat, x: bool)
    requires Covered(sb, d, logged0, d', logged) && LayoutOk(sb) && b < |d'.used| == |d'.data| == sb.size
    ensures Covered(sb, d, logged0, d'.(used := d'.used[b := x]), logged + {Bblock(sb, b)})
  {
    BblockIn(sb, b);
  }

  lemma IblockIn(sb: Super, i: nat)
    requires LayoutOk(sb) && i < sb.ninodes
    ensures sb.inodestart <= Iblock(sb, i) < sb.bmapstart
  {
    assert i / IPB <= sb.ninodes / IPB;
  }

  lemma BblockIn(sb: Super, b: nat)
    requires LayoutOk(sb) && b < sb.size
    ensures sb.bmapstart <= Bblock(sb, b) < sb.nmeta && Bblock(sb, b) in BitBlocks(sb)
  {
    assert b / BPB <= sb.size / BPB;
  }

  ghost function BitBlocks(sb: Super): set<nat> { Span(sb.bmapstart, sb.size / BPB + 1) }

  ghost function FreeSet(used: seq<bool>): set<nat> {
    set b: nat | b < |used| && !used[b]
  }

  ghost function FreeCount(used: seq<bool>): nat { |FreeSet(used)| }

  lemma TakeFree(used: seq<bool>, b: nat)
    requires b < |used| && !used[b]
    ensures FreeCount(used[b := true]) == FreeCount(used) - 1
  {
    assert FreeSet(used[b := true]) == FreeSet(used) - {b};
  }

  lemma NoneFree(used: seq<bool>)
    requires forall b :: 0 <= b < |used| ==> used[b]
    ensures FreeCount(used) == 0
  {
    assert FreeSet(used) == {};
  }

  /** What one transaction did to the disk's contents, and the blocks it logged. */
  datatype Change = Change(before: OnDisk, after: OnDisk, logged: set<nat>)

  /** Transactions one after the other that lead from d to d'. */
  ghost predicate Chain(sb: Super, d: OnDisk, cs: seq<Change>, d': OnDisk) {
    && (if cs == [] then d' == d else cs[0].before == d && cs[|cs| - 1].after == d')
    && (forall k :: 0 <= k < |cs| ==> Covered(sb, cs[k].before, {}, cs[k].after, cs[k].logged))
    && (forall k :: 0 <= k < |cs| - 1 ==> cs[k + 1].before == cs[k].after)
  }

  lemma ChainSnoc(sb: Super, d: OnDisk, cs: seq<Change>, d': OnDisk, c: Change)
    requires Chain(sb, d, cs, d') && c.before == d' && Covered(sb, c.before, {}, c.after, c.logged)
    ensures Chain(sb, d, cs + [c], c.after)
  {
  }

  /** The places that can name a block: block bn of a file, or the indirect
      block of a file. */
  datatype Pos = Data(ino: nat, bn: nat) | Indirect(ino: nat)

  ghost predicate Shaped(ino: Inode, n: nat) {
    |ino.addrs| == NDIRECT + 1 && ino.addrs[NDIRECT] < n
  }

  ghost predicate AllShaped(inode: seq<Inode>, n: nat) {
    forall i :: 0 <= i < |inode| ==> Shaped(inode[i], n)
  }

  /** The address of block k of a file, 0 if there is none. */
  function Addr(ino: Inode, data: seq<Block>, k: nat): nat
    requires Shaped(ino, |data|) && k < MAXFILE
  {
    if k < NDIRECT then ino.addrs[k]
    else if ino.addrs[NDIRECT] == 0 then 0
    else Word(data[ino.addrs[NDIRECT]], k - NDIRECT)
  }

  ghost predicate ValidPos(n: nat, p: Pos) {
    p.ino < n && (p.Data? ==> p.bn < MAXFILE)
  }

  ghost function BlockAt(inode: seq<Inode>, data: seq<Block>, p: Pos): nat
    requires AllShaped(inode, |data|) && ValidPos(|inode|, p)
  {
    match p
    case Data(i, k) => Addr(inode[i], data, k)
    case Indirect(i) => inode[i].addrs[NDIRECT]
  }

  /** Block ownership: every nonzero address is recorded in `owner`, which, being
      a map, gives each block one position; every recorded block is where it
      says; and the bitmap is exactly metadata plus owned blocks. */
  ghost predicate Own(sb: Super, inode: seq<Inode>, data: seq<Block>, used: seq<bool>, owner: map<nat, Pos>) {
    && 0 < sb.nmeta <= sb.size == |data| == |used| && |inode| == sb.ninodes
    && AllShaped(inode, |data|)
    && (forall p {:trigger BlockAt(inode, data, p)} :: ValidPos(|inode|, p) && BlockAt(inode, data, p) != 0 ==>
          BlockAt(inode, data, p) in owner && owner[BlockAt(inode, data, p)] == p)
    && (forall b :: b in owner ==>
          sb.nmeta <= b < sb.size && ValidPos(|inode|, owner[b]) && BlockAt(inode, data, owner[b]) == b)
    && (forall b :: 0 <= b < sb.size ==> (used[b] <==> b < sb.nmeta || b in owner))
  }

  /** Distinct positions never share a block, and no position names metadata or
      a block the bitmap calls free. */
  lemma OwnedOnce(sb: Super, inode: seq<Inode>, data: seq<Block>, used: seq<bool>, owner: map<nat, Pos>, p: Pos, q: Pos)
    requires Own(sb, inode, data, used, owner) && ValidPos(|inode|, p) && ValidPos(|inode|, q)
    requires BlockAt(inode, data, p) != 0
    ensures sb.nmeta <= BlockAt(inode, data, p) < sb.size && used[BlockAt(inode, data, p)]
    ensures BlockAt(inode, data, p) == BlockAt(inode, data, q) ==> p == q
  {
  }

  /** A bit is set exactly for metadata and for blocks some position names. */
  lemma BitmapExact(sb: Super, inode: seq<Inode>, data: seq<Block>, used: seq<bool>, owner: map<nat, Pos>, b: nat)
    requires Own(sb, inode, data, used, owner) && b < sb.size
    ensures used[b] <==> b < sb.nmeta || exists p :: ValidPos(|inode|, p) && BlockAt(inode, data, p) == b && b != 0
  {
    if p :| ValidPos(|inode|, p) && BlockAt(inode, data, p) == b && b != 0 {
      assert b in owner;
    }
    if b in owner { assert BlockAt(inode, data, owner[b]) == b; }
  }

  /** Recording a free block at an empty position keeps ownership. */
  lemma OwnGrant(sb: Super, inode: seq<Inode>, data: seq<Block>, used: seq<bool>, owner: map<nat, Pos>,
                 inode': seq<Inode>, data': seq<Block>, p: Pos, b: nat)
    requires Own(sb, inode, data, used, owner) && b < sb.size && !used[b]
    requires |inode'| == |inode| && |data'| == |data| && AllShaped(inode', |data'|)
    requires ValidPos(|inode|, p) && BlockAt(inode, data, p) == 0
    requires forall q :: ValidPos(|inode|, q) ==>
               BlockAt(inode', data', q) == if q == p then b else BlockAt(inode, data, q)
    ensures Own(sb, inode', data', used[b := true], owner[b := p])
  {
    var owner' := owner[b := p];
    forall q | ValidPos(|inode'|, q) && BlockAt(inode', data', q) != 0
      ensures BlockAt(inode', data', q) in owner' && owner'[BlockAt(inode', data', q)] == q
    {
      assert q != p ==> BlockAt(inode, data, q) in owner;
    }
    forall c | c in owner'
      ensures sb.nmeta <= c < sb.size && ValidPos(|inode'|, owner'[c]) && BlockAt(inode', data', owner'[c]) == c
    {
      assert c != b ==> c in owner;
    }
  }

  // ---- the three ways bmap records a block ----

  /** data' agrees with data on every file block but the one at `except`. */
  ghost predicate SameData(inode: seq<Inode>, data: seq<Block>, data': seq<Block>, except: Pos)
    requires AllShaped(inode, |data|)
  {
    && |data'| == |data|
    && (forall q {:trigger BlockAt(inode, data, q)} ::
          ValidPos(|inode|, q) && q.Data? && q != except && 0 < BlockAt(inode, data, q) < |data| ==>
          data'[BlockAt(inode, data, q)] == data[BlockAt(inode, data, q)])
  }

  /** What bmap may do to the addresses and the data when it allocates block bn
      of file i: that address appears, an indirect block may; nothing else. */
  ghost predicate Grown(inode: seq<Inode>, data: seq<Block>, inode': seq<Inode>, data': seq<Block>, i: nat, bn: nat) {
    && |inode'| == |inode| && |data'| == |data| && AllShaped(inode, |data|) && AllShaped(inode', |data'|)
    && i < |inode| && bn < MAXFILE
    && inode' == inode[i := inode[i].(addrs := inode'[i].addrs)]
    && (forall q {:trigger BlockAt(inode', data', q)} {:trigger BlockAt(inode, data, q)} ::
          ValidPos(|inode|, q) && q != Data(i, bn) && q != Indirect(i) ==>
            BlockAt(inode', data', q) == BlockAt(inode, data, q))
    && (if bn < NDIRECT || inode[i].addrs[NDIRECT] != 0 then inode'[i].addrs[NDIRECT] == inode[i].addrs[NDIRECT]
        else inode'[i].addrs[NDIRECT] != 0)
    && SameData(inode, data, data', Data(i, bn))
  }

  lemma GrownTrans(inode: seq<Inode>, data: seq<Block>, inode1: seq<Inode>, data1: seq<Block>, inode2: seq<Inode>,
                   data2: seq<Block>, i: nat, bn: nat)
    requires Grown(inode, data, inode1, data1, i, bn) && Grown(inode1, data1, inode2, data2, i, bn)
    ensures Grown(inode, data, inode2, data2, i, bn)
  {
    forall q | ValidPos(|inode|, q) && q != Data(i, bn) && q != Indirect(i)
      ensures BlockAt(inode2, data2, q) == BlockAt(inode, data, q)
    {
      assert BlockAt(inode1, data1, q) == BlockAt(inode, data, q);
    }
    forall q | ValidPos(|inode|, q) && q.Data? && q != Data(i, bn) && 0 < BlockAt(inode, data, q) < |data|
      ensures data2[BlockAt(inode, data, q)] == data[BlockAt(inode, data, q)]
    {
      assert BlockAt(inode1, data1, q) == BlockAt(inode, data, q);
    }
  }

  /** addrs[k] = b, for a direct block. */
  lemma SetDirect(sb: Super, inode: seq<Inode>, data: seq<Block>, used: seq<bool>, owner: map<nat, Pos>, i: nat, k: nat,
                  b: nat)
    requires Own(sb, inode, data, used, owner) && i < |inode| && k < NDIRECT && b < sb.size && !used[b]
    requires inode[i].addrs[k] == 0
    ensures var inode', data' := inode[i := inode[i].(addrs := inode[i].addrs[k := b])], data[b := ZERO_BLOCK];
            && Own(sb, inode', data', used[b := true], owner[b := Data(i, k)])
            && Grown(inode, data, inode', data', i, k) && BlockAt(inode', data', Data(i, k)) == b
  {
    var inode' := inode[i := inode[i].(addrs := inode[i].addrs[k := b])];
    var data' := data[b := ZERO_BLOCK];
    forall q | ValidPos(|inode|, q)
      ensures BlockAt(inode', data', q) == if q == Data(i, k) then b else BlockAt(inode, data, q)
    {
      IndirectNotFree(sb, inode, data, used, owner, q.ino, b);
    }
    OwnGrant(sb, inode, data, used, owner, inode', data', Data(i, k), b);
    FreeIsNobodys(sb, inode, data, used, owner, b, Data(i, k));
  }

  /** Writing to a free block leaves every file's data alone. */
  lemma FreeIsNobodys(sb: Super, inode: seq<Inode>, data: seq<Block>, used: seq<bool>, owner: map<nat, Pos>, b: nat,
                      except: Pos)
    requires Own(sb, inode, data, used, owner) && b < sb.size && !used[b]
    ensures SameData(inode, data, data[b := ZERO_BLOCK], except)
  {
  }

  /** addrs[NDIRECT] = b: a fresh indirect block names nothing. */
  lemma SetIndirect(sb: Super, inode: seq<Inode>, data: seq<Block>, used: seq<bool>, owner: map<nat, Pos>, i: nat,
                    k: nat, b: nat)
    requires Own(sb, inode, data, used, owner) && i < |inode| && NDIRECT <= k < MAXFILE && b < sb.size && !used[b]
    requires inode[i].addrs[NDIRECT] == 0
    ensures var inode', data' := inode[i := inode[i].(addrs := inode[i].addrs[NDIRECT := b])], data[b := ZERO_BLOCK];
            && Own(sb, inode', data', used[b := true], owner[b := Indirect(i)])
            && Grown(inode, data, inode', data', i, k) && BlockAt(inode', data', Data(i, k)) == 0
  {
    var inode' := inode[i := inode[i].(addrs := inode[i].addrs[NDIRECT := b])];
    var data' := data[b := ZERO_BLOCK];
    forall q | ValidPos(|inode|, q)
      ensures BlockAt(inode', data', q) == if q == Indirect(i) then b else BlockAt(inode, data, q)
    {
      IndirectNotFree(sb, inode, data, used, owner, q.ino, b);
      if q.Data? && q.bn >= NDIRECT && q.ino == i { ZeroBlockWords(q.bn - NDIRECT); }
    }
    OwnGrant(sb, inode, data, used, owner, inode', data', Indirect(i), b);
    FreeIsNobodys(sb, inode, data, used, owner, b, Data(i, k));
  }

  /** a[k - NDIRECT] = b in the indirect block. */
  lemma SetEntry(sb: Super, inode: seq<Inode>, data: seq<Block>, used: seq<bool>, owner: map<nat, Pos>, i: nat, k: nat,
                 b: nat)
    requires Own(sb, inode, data, used, owner) && i < |inode| && NDIRECT <= k < MAXFILE && b < sb.size <= UINT
             && !used[b]
    requires inode[i].addrs[NDIRECT] != 0 && Addr(inode[i], data, k) == 0
    ensures var ind := inode[i].addrs[NDIRECT];
            && ind != b && b < UINT
            && var data' := data[b := ZERO_BLOCK][ind := PutWord(data[ind], k - NDIRECT, b)];
            && Own(sb, inode, data', used[b := true], owner[b := Data(i, k)])
            && Grown(inode, data, inode, data', i, k) && BlockAt(inode, data', Data(i, k)) == b
  {
    hide Word, PutWord;
    var ind := inode[i].addrs[NDIRECT];
    IndirectNotFree(sb, inode, data, used, owner, i, b);
    var data' := data[b := ZERO_BLOCK][ind := PutWord(data[ind], k - NDIRECT, b)];
    forall q | ValidPos(|inode|, q)
      ensures BlockAt(inode, data', q) == if q == Data(i, k) then b else BlockAt(inode, data, q)
    {
      IndirectNotFree(sb, inode, data, used, owner, q.ino, b);
      if q.Data? && q.bn >= NDIRECT {
        if q.ino == i {
          WordOfPutWord(data[ind], k - NDIRECT, b, q.bn - NDIRECT);
        } else if inode[q.ino].addrs[NDIRECT] != 0 {
          OwnedOnce(sb, inode, data, used, owner, Indirect(q.ino), Indirect(i));
        }
      }
    }
    OwnGrant(sb, inode, data, used, owner, inode, data', Data(i, k), b);
    assert BlockAt(inode, data, Indirect(i)) == ind;
    FreeIsNobodys(sb, inode, data, used, owner, b, Data(i, k));
  }

  lemma IndirectNotFree(sb: Super, inode: seq<Inode>, data: seq<Block>, used: seq<bool>, owner: map<nat, Pos>, i: nat,
                        b: nat)
    requires Own(sb, inode, data, used, owner) && i < |inode| && b < sb.size && !used[b]
    ensures b != 0 && b !in owner && inode[i].addrs[NDIRECT] != b
  {
    assert BlockAt(inode, data, Indirect(i)) == inode[i].addrs[NDIRECT];
  }

  /** Changing a data block's bytes moves no address. */
  lemma StoreBlock(sb: Super, inode: seq<Inode>, data: seq<Block>, used: seq<bool>, owner: map<nat, Pos>, p: Pos,
                   x: Block)
    requires Own(sb, inode, data, used, owner) && ValidPos(|inode|, p) && p.Data? && BlockAt(inode, data, p) != 0
    ensures BlockAt(inode, data, p) < |data|
    ensures Own(sb, inode, data[BlockAt(inode, data, p) := x], used, owner)
    ensures forall q :: ValidPos(|inode|, q) ==>
              BlockAt(inode, data[BlockAt(inode, data, p) := x], q) == BlockAt(inode, data, q)
  {
    var b := BlockAt(inode, data, p);
    var data' := data[b := x];
    forall q | ValidPos(|inode|, q) ensures BlockAt(inode, data', q) == BlockAt(inode, data, q) {
      if inode[q.ino].addrs[NDIRECT] == b { OwnedOnce(sb, inode, data, used, owner, p, Indirect(q.ino)); }
    }
  }

  /** Ownership is about addresses: other inode fields may change. */
  lemma OwnFields(sb: Super, inode: seq<Inode>, data: seq<Block>, used: seq<bool>, owner: map<nat, Pos>, i: nat,
                  ino: Inode)
    requires Own(sb, inode, data, used, owner) && i < |inode| && ino.addrs == inode[i].addrs
    ensures Own(sb, inode[i := ino], data, used, owner)
  {
    var inode' := inode[i := ino];
    forall p | ValidPos(|inode|, p) ensures BlockAt(inode', data, p) == BlockAt(inode, data, p) { }
  }

  // ---- giving blocks back ----

  /** Clearing one position and its bit keeps ownership. */
  lemma OwnRevoke(sb: Super, inode: seq<Inode>, data: seq<Block>, used: seq<bool>, owner: map<nat, Pos>,
                  inode': seq<Inode>, p: Pos)
    requires Own(sb, inode, data, used, owner) && |inode'| == |inode| && AllShaped(inode', |data|)
    requires ValidPos(|inode|, p) && BlockAt(inode, data, p) != 0
    requires forall q :: ValidPos(|inode|, q) ==>
               BlockAt(inode', data, q) == if q == p then 0 else BlockAt(inode, data, q)
    ensures BlockAt(inode, data, p) < |used|
    ensures Own(sb, inode', data, used[BlockAt(inode, data, p) := false], owner - {BlockAt(inode, data, p)})
  {
    var b := BlockAt(inode, data, p);
    forall q | ValidPos(|inode'|, q) && BlockAt(inode', data, q) != 0
      ensures BlockAt(inode', data, q) in owner - {b} && owner[BlockAt(inode', data, q)] == q
    {
      assert BlockAt(inode, data, q) in owner;
    }
  }

  /** addrs[k] = 0, for a direct block. */
  lemma ClearDirect(sb: Super, inode: seq<Inode>, data: seq<Block>, used: seq<bool>, owner: map<nat, Pos>, i: nat,
                    k: nat)
    requires Own(sb, inode, data, used, owner) && i < |inode| && k < NDIRECT && inode[i].addrs[k] != 0
    ensures var b := inode[i].addrs[k];
            && b < |used| && used[b]
            && Own(sb, inode[i := inode[i].(addrs := inode[i].addrs[k := 0])], data, used[b := false], owner - {b})
  {
    var inode' := inode[i := inode[i].(addrs := inode[i].addrs[k := 0])];
    var p := Data(i, k);
    forall q | ValidPos(|inode|, q)
      ensures BlockAt(inode', data, q) == if q == p then 0 else BlockAt(inode, data, q) { }
    assert BlockAt(inode, data, p) == inode[i].addrs[k];
    OwnRevoke(sb, inode, data, used, owner, inode', p);
  }

  /** Positions that hang off file i's indirect block, those below block j. */
  ghost predicate Hangs(p: Pos, i: nat, j: nat) {
    p.Data? && p.ino == i && NDIRECT <= p.bn < j
  }

  /** The bitmap after freeing the blocks that hang below j. */
  ghost predicate Freed(used: seq<bool>, used': seq<bool>, owner: map<nat, Pos>, i: nat, j: nat) {
    && |used'| == |used|
    && (forall b :: 0 <= b < |used| ==> (used'[b] <==> used[b] && !(b in owner && Hangs(owner[b], i, j))))
  }

  lemma FreeNext(sb: Super, inode: seq<Inode>, data: seq<Block>, used: seq<bool>, owner: map<nat, Pos>,
                 used': seq<bool>, i: nat, j: nat)
    requires Own(sb, inode, data, used, owner) && i < |inode| && NDIRECT <= j < MAXFILE
             && Freed(used, used', owner, i, j)
    ensures var b := Addr(inode[i], data, j);
            if b == 0 then Freed(used, used', owner, i, j + 1)
            else b < |used'| && used'[b] && Freed(used, used'[b := false], owner, i, j + 1)
  {
    assert BlockAt(inode, data, Data(i, j)) == Addr(inode[i], data, j);
    forall b | b in owner && Hangs(owner[b], i, j + 1) && !Hangs(owner[b], i, j) ensures b == Addr(inode[i], data, j) {
      assert BlockAt(inode, data, owner[b]) == b;
    }
  }

  /** addrs[NDIRECT] = 0, the blocks hanging off it already free. */
  lemma ClearIndirect(sb: Super, inode: seq<Inode>, data: seq<Block>, used: seq<bool>, owner: map<nat, Pos>,
                      used': seq<bool>, i: nat)
    requires Own(sb, inode, data, used, owner) && i < |inode| && inode[i].addrs[NDIRECT] != 0
    requires Freed(used, used', owner, i, MAXFILE)
    ensures var ind := inode[i].addrs[NDIRECT];
            && ind < |used'| && used'[ind]
            && Own(sb, inode[i := inode[i].(addrs := inode[i].addrs[NDIRECT := 0])], data, used'[ind := false],
                   map b | b in owner && !Hangs(owner[b], i, MAXFILE) && owner[b] != Indirect(i) :: owner[b])
  {
    hide Word;
    var ind := inode[i].addrs[NDIRECT];
    assert BlockAt(inode, data, Indirect(i)) == ind;
    var inode' := inode[i := inode[i].(addrs := inode[i].addrs[NDIRECT := 0])];
    var owner' := map b | b in owner && !Hangs(owner[b], i, MAXFILE) && owner[b] != Indirect(i) :: owner[b];
    forall q | ValidPos(|inode|, q)
      ensures BlockAt(inode', data, q)
              == if Hangs(q, i, MAXFILE) || q == Indirect(i) then 0 else BlockAt(inode, data, q) { }
    forall q | ValidPos(|inode'|, q) && BlockAt(inode', data, q) != 0
      ensures BlockAt(inode', data, q) in owner' && owner'[BlockAt(inode', data, q)] == q
    {
      assert BlockAt(inode, data, q) in owner;
    }
    forall b | 0 <= b < sb.size ensures used'[ind := false][b] <==> b < sb.nmeta || b in owner' {
      if b in owner { assert BlockAt(inode, data, owner[b]) == b; }
    }
  }
}
