/** fs.c: block allocation, bmap, itrunc, readi and writei, on the cached view
    of the disk the log layer provides. */
module FileSystem {
  import opened Blocks
  import opened FsState
  import opened FileContent
  import opened Params
  import opened Sets

  /** How many blocks of a file of that size are allocated once a write from
      off has got through its first tot bytes. */
  function Count(size: nat, off: nat, tot: nat): nat {
    if tot == 0 || NBlocks(off + tot) <= NBlocks(size) then NBlocks(size) else NBlocks(off + tot)
  }

  /** The state of writei's loop after tot bytes, against the state it began in. */
  ghost predicate WriteState(inode0: seq<Inode>, data0: seq<Block>, inode: seq<Inode>, data: seq<Block>, i: nat,
                             off: nat, src: seq<Byte>, tot: nat) {
    && i < |inode0| == |inode| && NoHoles(inode0[i], data0)
    && off <= inode0[i].size && off + |src| <= MAXFILE * BSIZE
    && tot <= |src| && (0 < tot < |src| ==> (off + tot) % BSIZE == 0)
    && inode == inode0[i := inode0[i].(addrs := inode[i].addrs)]
    && var size := inode0[i].size;
    var n0, n := NBlocks(size), Count(size, off, tot);
    && (n == n0 ==> inode == inode0)
    && off + tot <= n * BSIZE
    && Mapped(inode[i], data, n)
    && Image(inode[i], data, n) == Splice(Image(inode0[i], data0, n0) + Zeros((n - n0) * BSIZE), off, src[..tot])
    && (forall j :: 0 <= j < |inode| && j != i ==> Untouched(inode0, data0, inode, data, j))
  }

  lemma WriteStart(inode: seq<Inode>, data: seq<Block>, i: nat, off: nat, src: seq<Byte>)
    requires AllShaped(inode, |data|) && i < |inode| && NoHoles(inode[i], data)
    requires off <= inode[i].size && off + |src| <= MAXFILE * BSIZE
    ensures WriteState(inode, data, inode, data, i, off, src, 0)
  {
    assert inode == inode[i := inode[i].(addrs := inode[i].addrs)];
    var image := Image(inode[i], data, NBlocks(inode[i].size));
    assert Splice(image + Zeros(0), off, src[..0]) == image;
  }

  /** How many bytes the iteration at off0 + tot handles. */
  function Step(off: nat, n: nat, tot: nat): nat
    requires tot <= n
  {
    var rest, room := n - tot, BSIZE - (off + tot) % BSIZE;
    if rest < room then rest else room
  }

  lemma StepFits(off: nat, n: nat, tot: nat)
    requires tot < n
    ensures var m := Step(off, n, tot); 0 < m && tot + m <= n && (off + tot) % BSIZE + m <= BSIZE
  {
  }

  lemma CountStep(size: nat, off: nat, n: nat, tot: nat)
    requires off <= size && tot < n && (0 < tot ==> (off + tot) % BSIZE == 0)
    ensures var m, bn, c := Step(off, n, tot), (off + tot) / BSIZE, Count(size, off, tot);
            && 0 < m && tot + m <= n && (off + tot) % BSIZE + m <= BSIZE
            && bn <= c && Count(size, off, tot + m) == (if bn < c then c else c + 1)
            && off + tot + m <= Count(size, off, tot + m) * BSIZE
            && (tot + m < n ==> (off + tot + m) % BSIZE == 0)
            && NBlocks(off + tot + m) == bn + 1
            && NBlocks(size) <= c
  {
  }

  lemma MappedShaped(ino: Inode, data: seq<Block>, n: nat)
    requires Mapped(ino, data, n)
    ensures Shaped(ino, |data|) && n <= MAXFILE
    ensures forall k :: 0 <= k < MAXFILE ==> (Addr(ino, data, k) != 0 <==> k < n)
    ensures ino.addrs[NDIRECT] != 0 <==> n > NDIRECT
  {
  }

  lemma WriteNext(inode0: seq<Inode>, data0: seq<Block>, inode1: seq<Inode>, data1: seq<Block>, inode: seq<Inode>,
                  data: seq<Block>, i: nat, off: nat, src: seq<Byte>, tot: nat)
    requires WriteState(inode0, data0, inode1, data1, i, off, src, tot) && tot < |src|
    requires |inode| == |inode1| && inode == inode1[i := inode1[i].(addrs := inode[i].addrs)]
    requires AllShaped(inode, |data|)
    requires var m, bn, c := Step(off, |src|, tot), (off + tot) / BSIZE, Count(inode0[i].size, off, tot);
             && tot + m <= |src| && off + tot + m <= Count(inode0[i].size, off, tot + m) * BSIZE
             && c <= MAXFILE && Count(inode0[i].size, off, tot + m) <= MAXFILE
             && (if bn < c then
                   && inode == inode1 && Mapped(inode[i], data, c)
                   && Image(inode[i], data, c) == Splice(Image(inode1[i], data1, c), off + tot, src[tot..tot+m])
                 else
                   && Mapped(inode[i], data, c + 1)
                   && Image(inode[i], data, c + 1)
                      == Splice(Image(inode1[i], data1, c) + Zeros(BSIZE), off + tot, src[tot..tot+m]))
    requires forall j :: 0 <= j < |inode| && j != i ==> Untouched(inode1, data1, inode, data, j)
    ensures WriteState(inode0, data0, inode, data, i, off, src, tot + Step(off, |src|, tot))
  {
    hide Image, Mapped, Untouched, Step, Count, NBlocks, Splice;
    MappedShaped(inode0[i], data0, NBlocks(inode0[i].size));
    MappedShaped(inode1[i], data1, Count(inode0[i].size, off, tot));
    var m, bn, size := Step(off, |src|, tot), (off + tot) / BSIZE, inode0[i].size;
    CountStep(size, off, |src|, tot);
    var n0, c, c' := NBlocks(size), Count(size, off, tot), Count(size, off, tot + m);
    var img0, img1, img := Image(inode0[i], data0, n0), Image(inode1[i], data1, c), Image(inode[i], data, c');
    if bn < c { assert img1 + Zeros(0) == img1; }
    SpliceNext(img0, (c - n0) * BSIZE, off, src, tot, m, (c' - c) * BSIZE, img1, img);
    forall j | 0 <= j < |inode| && j != i ensures Untouched(inode0, data0, inode, data, j) {
      UntouchedTrans(inode0, data0, inode1, data1, inode, data, j);
    }
  }

  /** The loop done, and the size raised if the write ended beyond it. */
  lemma WriteDone(inode0: seq<Inode>, data0: seq<Block>, inode: seq<Inode>, data: seq<Block>, i: nat, off: nat,
                  src: seq<Byte>)
    requires WriteState(inode0, data0, inode, data, i, off, src, |src|)
    ensures var size := if |src| > 0 && off + |src| > inode0[i].size then off + |src| else inode0[i].size;
            && (size == inode0[i].size ==> inode == inode0)
            && NoHoles(inode[i].(size := size), data)
            && Content(inode[i].(size := size), data) == Overwrite(Content(inode0[i], data0), off, src)
  {
    var size0 := inode0[i].size;
    var size := if |src| > 0 && off + |src| > size0 then off + |src| else size0;
    var n0, n := NBlocks(size0), Count(size0, off, |src|);
    var ino := inode[i].(size := size);
    assert NBlocks(size) == n;
    forall k | 0 <= k < MAXFILE ensures Addr(ino, data, k) == Addr(inode[i], data, k) { }
    assert Image(ino, data, n) == Image(inode[i], data, n) by {
      forall p | 0 <= p < n * BSIZE ensures ByteAt(ino, data, p) == ByteAt(inode[i], data, p) { }
    }
    assert src[..|src|] == src;
    SpliceIsOverwrite(Image(inode0[i], data0, n0), size0, off, src, (n - n0) * BSIZE);
  }

  class Fs {
    const sb: Super
    var inode: seq<Inode>       // the in-memory inodes
    var dinode: seq<Inode>      // the inodes on disk
    var data: seq<Block>
    var used: seq<bool>         // the bitmap
    var logged: set<nat>        // blocks log_write has seen in this transaction
    ghost var owner: map<nat, Pos>

    constructor (sb: Super, inodes: seq<Inode>, data: seq<Block>, bitmap: seq<bool>, ghost owner: map<nat, Pos>)
      ensures this.sb == sb && inode == inodes && dinode == inodes && this.data == data && used == bitmap
      ensures logged == {} && this.owner == owner
    {
      this.sb, inode, dinode, this.data, used, logged := sb, inodes, inodes, data, bitmap, {};
      this.owner := owner;
    }

    /** A reboot: what is in memory is read from the disk. */
    method Reload(d: OnDisk, ghost owner: map<nat, Pos>)
      modifies this
      ensures inode == d.dinode && D() == d && logged == {} && this.owner == owner
    {
      inode, dinode, used, data, logged := d.dinode, d.dinode, d.used, d.data, {};
      this.owner := owner;
    }

    ghost predicate Owned()
      reads this
    {
      sb.size <= UINT && LayoutOk(sb) && Own(sb, inode, data, used, owner)
    }

    ghost function D(): OnDisk
      reads this
    {
      OnDisk(dinode, used, data)
    }

    /** Since the given state, log_write has seen every block that has changed. */
    twostate predicate LogsAll()
      reads this
    {
      Covered(sb, old(D()), old(logged), D(), logged)
    }

    /** No block is free: where the source panics for want of space. */
    ghost predicate Full()
      reads this
    {
      forall c :: 0 <= c < |used| ==> used[c]
    }

    /** balloc: the lowest free block, marked in use and zeroed; none free is
        the panic "out of blocks". */
    method Balloc() returns (ok: bool, b: nat)
      requires Owned()
      modifies this`used, this`data, this`logged
      ensures !ok ==>
                used == old(used) && data == old(data) && logged == old(logged)
                && forall c :: 0 <= c < sb.size ==> used[c]
      ensures ok ==> b < sb.size && !old(used)[b] && forall c :: 0 <= c < b ==> old(used)[c]
      ensures ok ==> used == old(used)[b := true] && data == old(data)[b := ZERO_BLOCK]
      ensures ok ==> logged == old(logged) + {Bblock(sb, b), b}
      ensures old(FreeCount(used)) == if ok then FreeCount(used) + 1 else 0
      ensures LogsAll()
    {
      hide Own, Covered, LayoutOk, FreeCount;
      OwnShaped(sb, inode, data, used, owner);
      CoveredNone(sb, D(), logged);
      var base := 0;
      while base < sb.size
        invariant 0 <= base && forall c :: 0 <= c < base && c < sb.size ==> used[c]
        invariant used == old(used) && data == old(data) && logged == old(logged)
      {
        var bi := 0;
        while bi < BPB && base + bi < sb.size
          invariant 0 <= bi <= BPB && forall c :: 0 <= c < base + bi && c < sb.size ==> used[c]
          invariant used == old(used) && data == old(data) && logged == old(logged)
        {
          b := base + bi;
          if !used[b] {
            FreeIsData(sb, inode, data, used, owner, b);
            TakeFree(used, b);
            CoveredBit(sb, D(), logged, D(), logged, b, true);
            CoveredStore(sb, D(), logged, D().(used := used[b := true]), logged + {Bblock(sb, b)}, b, ZERO_BLOCK);
            used := used[b := true];
            logged := logged + {Bblock(sb, b)};
            data := data[b := ZERO_BLOCK];
            logged := logged + {b};
            return true, b;
          }
          bi := bi + 1;
        }
        base := base + BPB;
      }
      NoneFree(used);
      return false, 0;
    }

    /** The blocks bmap logs when it allocates block bn of file i. */
    ghost function AllocLog(i: nat, bn: nat, addr: nat, ind: nat, newInd: bool): set<nat> {
      {Bblock(sb, addr), addr} + (if bn < NDIRECT then {} else {ind}) + (if newInd then {Bblock(sb, ind)} else {})
    }

    /** How many blocks bmap takes for block bn of file i. */
    ghost function Need(i: nat, bn: nat): nat
      requires Owned() && i < |inode| && bn < MAXFILE
      reads this
    {
      if Addr(inode[i], data, bn) != 0 then 0 else if bn < NDIRECT || inode[i].addrs[NDIRECT] != 0 then 1 else 2
    }

    /** bmap: the address of block bn of file i, allocated if there is none. A
        panic is out of range or out of blocks. */
    method Bmap(i: nat, bn: nat) returns (ok: bool, addr: nat)
      requires Owned() && i < |inode|
      modifies this`inode, this`data, this`used, this`logged, this`owner
      ensures ok ==> bn < MAXFILE
      ensures bn < MAXFILE && Addr(old(inode)[i], old(data), bn) != 0 ==> ok
      ensures !ok && bn < MAXFILE ==> Full()
      ensures bn < MAXFILE ==>
                if ok then old(FreeCount(used)) == FreeCount(used) + old(Need(i, bn))
                else old(FreeCount(used)) < old(Need(i, bn))
      ensures ok ==> Owned() && addr == BlockAt(inode, data, Data(i, bn)) && sb.nmeta <= addr < |data|
      ensures ok ==> addr != 0 && |inode| == |old(inode)| && |data| == |old(data)|
      ensures ok && Addr(old(inode)[i], old(data), bn) != 0 ==>
                inode == old(inode) && data == old(data) && used == old(used) && logged == old(logged)
                && owner == old(owner)
      ensures ok && Addr(old(inode)[i], old(data), bn) == 0 ==>
                && Grown(old(inode), old(data), inode, data, i, bn) && data[addr] == ZERO_BLOCK
                && logged == old(logged) + AllocLog(i, bn, addr, inode[i].addrs[NDIRECT],
                                                    bn >= NDIRECT && old(inode)[i].addrs[NDIRECT] == 0)
      ensures LogsAll()
    {
      hide Covered, FreeCount;
      CoveredNone(sb, D(), logged);
      addr := 0;
      if bn < NDIRECT {
        addr := inode[i].addrs[bn];
        assert addr == BlockAt(inode, data, Data(i, bn));
        if addr != 0 { return true, addr; }
        ok, addr := Balloc();
        if ok {
          SetDirect(sb, inode, old(data), old(used), owner, i, bn, addr);
          inode := inode[i := inode[i].(addrs := inode[i].addrs[bn := addr])];
          owner := owner[addr := Data(i, bn)];
        }
      } else if bn < MAXFILE {
        ok, addr := BmapIndirect(i, bn);
      } else {
        ok := false;
      }
    }

    /** The indirect block of file i, allocated if there is none. */
    method IndirectBlock(i: nat, bn: nat) returns (ok: bool, ind: nat)
      requires Owned() && i < |inode| && NDIRECT <= bn < MAXFILE
      modifies this`inode, this`data, this`used, this`logged, this`owner
      ensures !ok ==> Full()
      ensures ok ==> Owned() && |inode| == |old(inode)| && |data| == |old(data)| && ind == inode[i].addrs[NDIRECT] != 0
      ensures old(inode)[i].addrs[NDIRECT] != 0 ==>
                ok && inode == old(inode) && data == old(data) && used == old(used) && logged == old(logged)
                && owner == old(owner)
      ensures ok && old(inode)[i].addrs[NDIRECT] == 0 ==>
                && Grown(old(inode), old(data), inode, data, i, bn) && BlockAt(inode, data, Data(i, bn)) == 0
                && logged == old(logged) + {Bblock(sb, ind), ind}
      ensures var need := if old(inode)[i].addrs[NDIRECT] == 0 then 1 else 0;
              if ok then old(FreeCount(used)) == FreeCount(used) + need else old(FreeCount(used)) < need
      ensures LogsAll()
    {
      hide Word, Grown, SameData, Covered, FreeCount;
      CoveredNone(sb, D(), logged);
      ind := inode[i].addrs[NDIRECT];
      if ind != 0 { return true, ind; }
      ok, ind := Balloc();
      if ok {
        SetIndirect(sb, inode, old(data), old(used), owner, i, bn, ind);
        inode := inode[i := inode[i].(addrs := inode[i].addrs[NDIRECT := ind])];
        owner := owner[ind := Indirect(i)];
      }
    }

    method BmapIndirect(i: nat, bn: nat) returns (ok: bool, addr: nat)
      requires Owned() && i < |inode| && NDIRECT <= bn < MAXFILE
      modifies this`inode, this`data, this`used, this`logged, this`owner
      ensures Addr(old(inode)[i], old(data), bn) != 0 ==> ok
      ensures !ok ==> Full()
      ensures if ok then old(FreeCount(used)) == FreeCount(used) + old(Need(i, bn))
              else old(FreeCount(used)) < old(Need(i, bn))
      ensures ok ==> Owned() && addr == BlockAt(inode, data, Data(i, bn)) && sb.nmeta <= addr < |data|
      ensures ok ==> addr != 0 && |inode| == |old(inode)| && |data| == |old(data)|
      ensures ok && Addr(old(inode)[i], old(data), bn) != 0 ==>
                inode == old(inode) && data == old(data) && used == old(used) && logged == old(logged)
                && owner == old(owner)
      ensures ok && Addr(old(inode)[i], old(data), bn) == 0 ==>
                && Grown(old(inode), old(data), inode, data, i, bn) && data[addr] == ZERO_BLOCK
                && logged == old(logged) + AllocLog(i, bn, addr, inode[i].addrs[NDIRECT],
                                                    bn >= NDIRECT && old(inode)[i].addrs[NDIRECT] == 0)
      ensures LogsAll()
    {
      hide Word, PutWord, Grown, SameData, Covered, FreeCount;
      var ind;
      ok, ind := IndirectBlock(i, bn);
      if !ok { return false, 0; }
      addr := Word(data[ind], bn - NDIRECT);
      assert addr == BlockAt(inode, data, Data(i, bn));
      if addr != 0 { return true, addr; }
      ghost var data1, d1, logged1 := data, D(), logged;
      ok, addr := IndirectEntry(i, bn);
      CoveredTrans(sb, old(D()), old(logged), d1, logged1, D(), logged);
      if ok && old(inode)[i].addrs[NDIRECT] == 0 {
        GrownTrans(old(inode), old(data), inode, data1, inode, data, i, bn);
      }
    }

    /** A block allocated and entered in the indirect block. */
    method IndirectEntry(i: nat, bn: nat) returns (ok: bool, addr: nat)
      requires Owned() && i < |inode| && NDIRECT <= bn < MAXFILE
      requires inode[i].addrs[NDIRECT] != 0 && BlockAt(inode, data, Data(i, bn)) == 0
      modifies this`data, this`used, this`logged, this`owner
      ensures !ok ==> Full()
      ensures old(FreeCount(used)) == if ok then FreeCount(used) + 1 else 0
      ensures ok ==>
                Owned() && addr == BlockAt(inode, data, Data(i, bn)) && 0 < sb.nmeta <= addr < |data| == |old(data)|
      ensures ok ==> Grown(inode, old(data), inode, data, i, bn) && data[addr] == ZERO_BLOCK
      ensures ok ==> logged == old(logged) + {Bblock(sb, addr), addr, inode[i].addrs[NDIRECT]}
      ensures LogsAll()
    {
      hide Word, PutWord, Grown, SameData, Covered, FreeCount;
      var ind := inode[i].addrs[NDIRECT];
      ok, addr := Balloc();
      if ok {
        OwnedOnce(sb, inode, old(data), old(used), owner, Indirect(i), Indirect(i));
        CoveredStore(sb, old(D()), old(logged), D(), logged, ind, PutWord(data[ind], bn - NDIRECT, addr));
        SetEntry(sb, inode, old(data), old(used), owner, i, bn, addr);
        data := data[ind := PutWord(data[ind], bn - NDIRECT, addr)];
        logged := logged + {ind};
        owner := owner[addr := Data(i, bn)];
      }
    }

    /** Between operations: ownership holds, no file has a hole, and the
        in-memory inodes are the ones on disk. */
    ghost predicate Valid()
      reads this
    {
      && Owned() && dinode == inode
      && (forall i :: 0 <= i < |inode| ==> NoHoles(inode[i], data))
      && (forall i :: 0 <= i < |inode| && inode[i].typ == 0 ==> inode[i].size == 0)
    }

    ghost function File(i: nat): seq<Byte>
      requires i < |inode| && NoHoles(inode[i], data)
      reads this
    {
      Content(inode[i], data)
    }

    // ---- writei ----

    /** One iteration of writei's loop: bmap, memmove, log_write. Of the blocks
        it logs, one is the data block, the others bitmap blocks, at most one
        for each block it allocates, and the indirect block. */
    method WriteBlock(i: nat, off: nat, piece: seq<Byte>, ghost n: nat) returns (ok: bool, ghost extra: set<nat>)
      requires Owned() && i < |inode| && Mapped(inode[i], data, n)
      requires off / BSIZE <= n && off / BSIZE < MAXFILE && off % BSIZE + |piece| <= BSIZE
      modifies this`inode, this`data, this`used, this`logged, this`owner
      ensures !ok ==> Full()
      ensures var need := if off / BSIZE < n then 0 else if n == NDIRECT then 2 else 1;
              if ok then old(FreeCount(used)) == FreeCount(used) + need else old(FreeCount(used)) < need
      ensures ok ==>
                Owned() && AllShaped(inode, |data|) && inode == old(inode)[i := old(inode)[i].(addrs := inode[i].addrs)]
      ensures ok ==> Ind(old(inode)[i]) <= Ind(inode[i])
      ensures ok && off / BSIZE < n ==>
                && inode == old(inode) && |extra| <= 1
                && Mapped(inode[i], data, n)
                && Image(inode[i], data, n) == Splice(Image(old(inode)[i], old(data), n), off, piece)
      ensures ok && off / BSIZE == n ==>
                && |extra| <= (if n == NDIRECT then 3 else 2)
                && Mapped(inode[i], data, n + 1)
                && Image(inode[i], data, n + 1) == Splice(Image(old(inode)[i], old(data), n) + Zeros(BSIZE), off, piece)
      ensures ok ==> forall j :: 0 <= j < |inode| && j != i ==> Untouched(old(inode), old(data), inode, data, j)
      ensures ok ==> logged <= old(logged) + extra + Ind(inode[i])
      ensures LogsAll()
    {
      hide Mapped, Image, Untouched, Splice, Zeros, Covered, Own, Ind, FreeCount;
      var bn, addr := off / BSIZE, 0;
      OwnShaped(sb, inode, data, used, owner);
      ok, addr, extra := MapForWrite(i, bn, n);
      if !ok { return; }
      ghost var inode1, data1, n1 := inode, data, if bn < n then n else n + 1;
      StoreFile(sb, inode, data, used, owner, i, n1, bn, off % BSIZE, piece);
      CoveredStore(sb, old(D()), old(logged), D(), logged, addr, Block(Splice(data[addr].bytes, off % BSIZE, piece)));
      data := data[addr := Block(Splice(data[addr].bytes, off % BSIZE, piece))];
      logged := logged + {addr};
      forall j | 0 <= j < |inode| && j != i ensures Untouched(old(inode), old(data), inode, data, j) {
        if bn == n { UntouchedTrans(old(inode), old(data), inode1, data1, inode, data, j); }
      }
    }

    /** The bmap of that iteration: the file's block bn, which grows the file by a
        zeroed block if it is the first beyond those mapped. */
    method MapForWrite(i: nat, bn: nat, ghost n: nat) returns (ok: bool, addr: nat, ghost extra: set<nat>)
      requires Owned() && i < |inode| && Mapped(inode[i], data, n) && bn <= n && bn < MAXFILE
      modifies this`inode, this`data, this`used, this`logged, this`owner
      ensures !ok ==> Full()
      ensures var need := if bn < n then 0 else if n == NDIRECT then 2 else 1;
              if ok then old(FreeCount(used)) == FreeCount(used) + need else old(FreeCount(used)) < need
      ensures ok ==>
                Owned() && AllShaped(inode, |data|) && |data| == |old(data)|
                && inode == old(inode)[i := old(inode)[i].(addrs := inode[i].addrs)]
      ensures ok ==> addr == BlockAt(inode, data, Data(i, bn)) && 0 < sb.nmeta <= addr < |data|
      ensures ok ==> Ind(old(inode)[i]) <= Ind(inode[i])
      ensures ok && bn < n ==> inode == old(inode) && data == old(data) && |extra| <= 1
      ensures ok && bn == n ==>
                && |extra| <= (if n == NDIRECT then 3 else 2)
                && Mapped(inode[i], data, n + 1)
                && Image(inode[i], data, n + 1) == Image(old(inode)[i], old(data), n) + Zeros(BSIZE)
                && forall j :: 0 <= j < |inode| && j != i ==> Untouched(old(inode), old(data), inode, data, j)
      ensures ok ==> logged + {addr} <= old(logged) + extra + Ind(inode[i])
      ensures LogsAll()
    {
      hide Mapped, Image, Grown, Untouched, Zeros, Covered, FreeCount;
      MappedShaped(inode[i], data, n);
      ok, addr := Bmap(i, bn);
      extra := {addr};
      if ok && bn == n {
        GrownInode(old(inode), old(data), inode, data, i, bn);
        GrowFile(sb, old(inode), old(data), inode, data, used, owner, i, n);
        extra := {addr, Bblock(sb, addr)} + if bn == NDIRECT then {Bblock(sb, inode[i].addrs[NDIRECT])} else {};
      }
    }

    /** iupdate. */
    method Iupdate(i: nat)
      requires i < |inode| == |dinode|
      modifies this`dinode, this`logged
      ensures dinode == old(dinode)[i := inode[i]]
      ensures logged == old(logged) + {Iblock(sb, i)}
    {
      dinode := dinode[i := inode[i]];
      logged := logged + {Iblock(sb, i)};
    }

    /** A new link count, and iupdate: the files stay as they are, and the inodes on disk
        are the ones in memory again. */
    method SetLinks(i: nat, n: Short)
      requires Valid() && i < |inode|
      modifies this`inode, this`dinode, this`logged
      ensures Valid() && inode == old(inode)[i := old(inode)[i].(nlink := n)]
      ensures forall j :: 0 <= j < |inode| ==> File(j) == old(Content(inode[j], data))
      ensures LogsAll() && logged == old(logged) + {Iblock(sb, i)}
    {
      hide Own, Covered, NoHoles, Content;
      OwnShaped(sb, inode, data, used, owner);
      CoveredNone(sb, D(), logged);
      OwnFields(sb, inode, data, used, owner, i, inode[i].(nlink := n));
      CoveredInode(sb, D(), logged, D(), logged, i, inode[i].(nlink := n));
      SameContent(inode[i], data, n);
      inode := inode[i := inode[i].(nlink := n)];
      Iupdate(i);
    }

    /** The end of a writei that made the file longer. */
    method RaiseSize(i: nat, size: nat)
      requires Owned() && i < |inode| == |dinode|
      modifies this`inode, this`dinode, this`logged
      ensures Owned() && inode == old(inode)[i := old(inode)[i].(size := size)] && dinode == old(dinode)[i := inode[i]]
      ensures logged == old(logged) + {Iblock(sb, i)} && LogsAll()
    {
      hide Own, Covered;
      OwnShaped(sb, inode, data, used, owner);
      CoveredNone(sb, D(), logged);
      OwnFields(sb, inode, data, used, owner, i, inode[i].(size := size));
      CoveredInode(sb, D(), logged, D(), logged, i, inode[i].(size := size));
      inode := inode[i := inode[i].(size := size)];
      Iupdate(i);
    }

    /** writei of a regular file or directory. The result -1 is exactly a start
        beyond the end or an end beyond the largest file; ok is false when the
        disk is full, which panics. */
    method Writei(i: nat, off: nat, src: seq<Byte>) returns (ok: bool, r: int)
      requires Valid() && i < |inode| && inode[i].typ != 0 && off < UINT && |src| < UINT
      modifies this
      ensures !ok ==> Full()
      ensures !ok <==>
                off <= old(inode[i].size) && off + |src| <= MAXFILE * BSIZE
                && old(FreeCount(used) < NewBits(inode[i].size, off, |src|))
      ensures ok && r == |src| ==> old(FreeCount(used)) == FreeCount(used) + NewBits(old(inode[i].size), off, |src|)
      ensures ok ==> Valid() && (r == -1 || r == |src|) && |inode| == old(|inode|)
      ensures ok ==> (r == |src| <==> off <= old(inode[i].size) && off + |src| <= MAXFILE * BSIZE)
      ensures ok && r == -1 ==> inode == old(inode) && data == old(data) && used == old(used) && logged == old(logged)
      ensures ok && r == |src| ==>
                && File(i) == Overwrite(old(File(i)), off, src)
                && inode[i] == old(inode[i]).(size := inode[i].size, addrs := inode[i].addrs)
      ensures ok ==> inode[i].typ == old(inode[i].typ)
      ensures ok ==>
                forall j :: 0 <= j < |inode| && j != i ==>
                  inode[j] == old(inode)[j] && File(j) == old(Content(inode[j], data))
      ensures ok ==> |logged| <= |old(logged)| + WriteBound(old(inode[i].size), off, |src|)
      ensures ok ==> LogsAll()
    {
      hide Content, NoHoles, Overwrite, Own, Covered, FreeCount, NewBits;
      CoveredNone(sb, D(), logged);
      if off > inode[i].size || (off + |src|) % UINT < off { return true, -1; }
      if off + |src| > MAXFILE * BSIZE { return true, -1; }
      ok := WriteAccepted(i, off, src);
      r := |src|;
    }

    /** writei past its guards. */
    method WriteAccepted(i: nat, off: nat, src: seq<Byte>) returns (ok: bool)
      requires Valid() && i < |inode| && inode[i].typ != 0 && off <= inode[i].size && off + |src| <= MAXFILE * BSIZE
      modifies this
      ensures !ok ==> Full()
      ensures var need := NewBits(old(inode[i].size), off, |src|);
              if ok then old(FreeCount(used)) == FreeCount(used) + need else old(FreeCount(used)) < need
      ensures ok ==> Valid() && |inode| == old(|inode|)
      ensures ok ==>
                File(i) == Overwrite(old(File(i)), off, src)
                && inode[i] == old(inode[i]).(size := inode[i].size, addrs := inode[i].addrs)
      ensures ok ==>
                forall j :: 0 <= j < |inode| && j != i ==>
                  inode[j] == old(inode)[j] && File(j) == old(Content(inode[j], data))
      ensures ok ==> |logged| <= |old(logged)| + WriteBound(old(inode[i].size), off, |src|)
      ensures ok ==> LogsAll()
    {
      hide Mapped, Image, Content, NoHoles, Word, Overwrite, Splice, Own, Untouched, Covered, Count, NBlocks, FreeCount,
           NewBits;
      OwnShaped(sb, inode, data, used, owner);
      ghost var inode0, data0, logged0 := inode, data, logged;
      WriteStart(inode, data, i, off, src);
      ghost var more;
      ok, more := WriteLoop(i, off, src);
      if !ok { return; }
      WriteDone(inode0, data0, inode, data, i, off, src);
      OthersKept(inode0, data0, inode, data, i, off, src);
      LoggedSize(logged0, logged, more, Iblock(sb, i));
      if |src| > 0 && off + |src| > inode[i].size {
        ghost var d1, logged1 := D(), logged;
        RaiseSize(i, off + |src|);
        CoveredTrans(sb, old(D()), old(logged), d1, logged1, D(), logged);
      }
    }

    /** writei's loop. */
    method WriteLoop(i: nat, off: nat, src: seq<Byte>) returns (ok: bool, ghost more: set<nat>)
      requires Owned() && |dinode| == |inode| && i < |inode| && WriteState(inode, data, inode, data, i, off, src, 0)
      modifies this`inode, this`data, this`used, this`logged, this`owner
      ensures !ok ==> Full()
      ensures var need := NewBits(old(inode[i].size), off, |src|);
              if ok then old(FreeCount(used)) == FreeCount(used) + need else old(FreeCount(used)) < need
      ensures ok ==> Owned() && WriteState(old(inode), old(data), inode, data, i, off, src, |src|)
      ensures ok ==> logged <= old(logged) + more && |more| <= WriteBound(old(inode[i].size), off, |src|) - 1
      ensures LogsAll()
    {
      hide WriteState, Mapped, Image, Own, Untouched, Step, Count, NBlocks, Touched, NewBits, Ind, Splice, Zeros,
           Covered, FreeCount;
      ok := true;
      CoveredNone(sb, D(), logged);
      ghost var inode0, data0, logged0, size0 := inode, data, logged, inode[i].size;
      var tot := 0;
      more := {};
      NoBits(size0, off);
      while tot < |src|
        invariant Owned() && tot <= |src| && |inode| == |inode0|
                  && WriteState(inode0, data0, inode, data, i, off, src, tot)
        invariant logged <= logged0 + more + Ind(inode[i])
        invariant |more| <= Touched(off, tot) + NewBits(size0, off, tot)
        invariant old(FreeCount(used)) == FreeCount(used) + NewBits(size0, off, tot)
        invariant LogsAll()
      {
        WriteReady(inode0, data0, inode, data, i, off, src, tot);
        CountStep(size0, off, |src|, tot);
        BoundStep(size0, off, |src|, tot);
        BitsGrow(size0, off, tot + Step(off, |src|, tot), |src|);
        ghost var n, inode1, data1, extra, logged1 := Count(size0, off, tot), inode, data, {}, logged;
        ghost var d1 := D();
        var m := Step(off, |src|, tot);
        ok, extra := WriteBlock(i, off + tot, src[tot..tot+m], n);
        CoveredTrans(sb, old(D()), old(logged), d1, logged1, D(), logged);
        if !ok { return false, {}; }
        WriteNext(inode0, data0, inode1, data1, inode, data, i, off, src, tot);
        LoggedStep(logged0, logged1, logged, more, extra, Ind(inode1[i]), Ind(inode[i]));
        more := more + extra;
        tot := tot + m;
      }
      LoggedEnd(more, inode[i]);
      more := more + Ind(inode[i]);
    }

    // ---- readi ----

    /** readi of a regular file or directory. Though bmap allocates what it does
        not find, a read changes nothing: there is always something to find. */
    method Readi(i: nat, off: nat, n: nat) returns (r: int, dst: seq<Byte>)
      requires Valid() && i < |inode| && off < UINT && n < UINT
      modifies this
      ensures Valid() && inode == old(inode) && data == old(data) && used == old(used)
      ensures dinode == old(dinode) && logged == old(logged) && owner == old(owner)
      ensures r == -1 <==> off > inode[i].size || off + n >= UINT
      ensures r != -1 ==> r == |dst| && dst == File(i)[off..if off + n <= inode[i].size then off + n else inode[i].size]
    {
      hide Own, Mapped, Image, Content, Word, NoHoles, Addr, Step, FreeCount, Need;
      dst := [];
      if off > inode[i].size || (off + n) % UINT < off { return -1, dst; }
      var len := if off + n > inode[i].size then inode[i].size - off else n;
      var tot := 0;
      while tot < len
        invariant 0 <= tot <= len && Valid()
        invariant inode == old(inode) && data == old(data) && used == old(used)
        invariant dinode == old(dinode) && logged == old(logged) && owner == old(owner)
        invariant dst == File(i)[off..off + tot]
      {
        var m := Step(off, len, tot);
        StepFits(off, len, tot);
        ReadPiece(inode[i], data, off + tot, m);
        SliceAppend(File(i), off, off + tot, off + tot + m);
        var _, addr := Bmap(i, (off + tot) / BSIZE);
        var o := (off + tot) % BSIZE;
        dst := dst + data[addr].bytes[o..o + m];
        tot := tot + m;
      }
      r := len;
    }

    // ---- freeing ----

    /** bfree; a bit already clear is the panic "freeing free block". */
    method Bfree(b: nat) returns (ok: bool)
      requires LayoutOk(sb) && b < |used| == |data| == sb.size
      modifies this`used, this`logged
      ensures ok <==> old(used)[b]
      ensures ok ==> used == old(used)[b := false] && logged == old(logged) + {Bblock(sb, b)}
      ensures Bblock(sb, b) in BitBlocks(sb)
      ensures !ok ==> used == old(used) && logged == old(logged)
      ensures LogsAll()
    {
      hide Covered, LayoutOk;
      ok := used[b];
      BblockIn(sb, b);
      CoveredNone(sb, D(), logged);
      if ok {
        CoveredBit(sb, D(), logged, D(), logged, b, false);
        used := used[b := false];
        logged := logged + {Bblock(sb, b)};
      }
    }

    /** itrunc: no bfree in it panics, and the file ends up empty. */
    method Itrunc(i: nat)
      requires Valid() && i < |inode|
      modifies this
      ensures Valid() && data == old(data)
      ensures inode == old(inode)[i := old(inode)[i].(size := 0, addrs := seq(NDIRECT + 1, _ => 0))]
      ensures forall j :: 0 <= j < |inode| && j != i ==> File(j) == old(Content(inode[j], data))
      ensures File(i) == [] && LogsAll() && logged <= old(logged) + BitBlocks(sb) + {Iblock(sb, i)}
    {
      hide Covered, BitBlocks;
      TruncDirect(i);
      if inode[i].addrs[NDIRECT] != 0 {
        ghost var d1, logged1 := D(), logged;
        TruncIndirect(i);
        CoveredTrans(sb, old(D()), old(logged), d1, logged1, D(), logged);
      }
      OwnFields(sb, inode, data, used, owner, i, inode[i].(size := 0));
      inode := inode[i := inode[i].(size := 0)];
      assert inode[i].addrs == seq(NDIRECT + 1, _ => 0);
      CoveredInode(sb, old(D()), old(logged), D(), logged, i, inode[i]);
      Iupdate(i);
      assert NoHoles(inode[i], data) by {
        forall l | 0 <= l < MAXFILE ensures Addr(inode[i], data, l) == 0 { }
      }
      forall j | 0 <= j < |inode| && j != i ensures NoHoles(inode[j], data) { assert NoHoles(old(inode)[j], data); }
    }

    method TruncDirect(i: nat)
      requires Owned() && i < |inode|
      modifies this`used, this`logged, this`inode, this`owner
      ensures Owned() && inode == old(inode)[i := old(inode)[i].(addrs := inode[i].addrs)]
      ensures |inode[i].addrs| == |old(inode)[i].addrs| == NDIRECT + 1
              && inode[i].addrs[NDIRECT] == old(inode)[i].addrs[NDIRECT]
      ensures forall l :: 0 <= l < NDIRECT ==> inode[i].addrs[l] == 0
      ensures LogsAll() && logged <= old(logged) + BitBlocks(sb)
    {
      hide Covered, BitBlocks;
      CoveredNone(sb, D(), logged);
      var k := 0;
      while k < NDIRECT
        invariant 0 <= k <= NDIRECT && Owned()
        invariant inode == old(inode)[i := old(inode)[i].(addrs := inode[i].addrs)]
        invariant inode[i].addrs[NDIRECT] == old(inode)[i].addrs[NDIRECT]
        invariant forall l :: 0 <= l < k ==> inode[i].addrs[l] == 0
        invariant LogsAll() && logged <= old(logged) + BitBlocks(sb)
      {
        if inode[i].addrs[k] != 0 {
          ClearDirect(sb, inode, data, used, owner, i, k);
          ghost var d1, logged1 := D(), logged;
          var ok := Bfree(inode[i].addrs[k]);
          assert ok;
          CoveredTrans(sb, old(D()), old(logged), d1, logged1, D(), logged);
          owner := owner - {inode[i].addrs[k]};
          inode := inode[i := inode[i].(addrs := inode[i].addrs[k := 0])];
        }
        k := k + 1;
      }
    }

    method TruncIndirect(i: nat)
      requires Owned() && i < |inode| && inode[i].addrs[NDIRECT] != 0
      modifies this`used, this`logged, this`inode, this`owner
      ensures Owned() && inode == old(inode)[i := old(inode)[i].(addrs := old(inode)[i].addrs[NDIRECT := 0])]
      ensures LogsAll() && logged <= old(logged) + BitBlocks(sb)
    {
      hide Covered, BitBlocks;
      CoveredNone(sb, D(), logged);
      var ind := inode[i].addrs[NDIRECT];
      ghost var used0 := used;
      var j := 0;
      while j < WORDS
        invariant 0 <= j <= WORDS && inode == old(inode) && owner == old(owner)
        invariant Freed(used0, used, owner, i, NDIRECT + j)
        invariant LogsAll() && logged <= old(logged) + BitBlocks(sb)
      {
        FreeNext(sb, inode, data, used0, owner, used, i, NDIRECT + j);
        if Word(data[ind], j) != 0 {
          ghost var d1, logged1 := D(), logged;
          var ok := Bfree(Word(data[ind], j));
          assert ok;
          CoveredTrans(sb, old(D()), old(logged), d1, logged1, D(), logged);
        }
        j := j + 1;
      }
      ClearIndirect(sb, inode, data, used0, owner, used, i);
      ghost var d1, logged1 := D(), logged;
      var ok := Bfree(ind);
      assert ok;
      CoveredTrans(sb, old(D()), old(logged), d1, logged1, D(), logged);
      owner := map b | b in owner && !Hangs(owner[b], i, MAXFILE) && owner[b] != Indirect(i) :: owner[b];
      inode := inode[i := inode[i].(addrs := inode[i].addrs[NDIRECT := 0])];
    }

    /** ialloc: the lowest free inode from 1 up, zeroed and typed; none free is
        the panic "no inodes". */
    method Ialloc(typ: Short) returns (ok: bool, inum: nat)
      requires Valid() && typ != 0 && |inode| == sb.ninodes
      modifies this
      ensures ok <==> exists j :: 1 <= j < |old(inode)| && old(inode)[j].typ == 0
      ensures Valid() && data == old(data) && used == old(used) && |inode| == old(|inode|)
      ensures ok ==>
                1 <= inum < |inode| && old(inode)[inum].typ == 0 && forall j :: 1 <= j < inum ==> old(inode)[j].typ != 0
      ensures ok ==> inode == old(inode)[inum := Inode(typ, 0, 0, 0, 0, seq(NDIRECT + 1, _ => 0))] && File(inum) == []
      ensures ok ==> logged == old(logged) + {Iblock(sb, inum)}
      ensures !ok ==> inode == old(inode) && logged == old(logged)
      ensures LogsAll()
    {
      hide Covered;
      CoveredNone(sb, D(), logged);
      inum := 1;
      while inum < sb.ninodes
        invariant 1 <= inum && forall j :: 1 <= j < inum && j < |inode| ==> inode[j].typ != 0
        invariant inode == old(inode) && dinode == inode && logged == old(logged) && data == old(data)
                  && used == old(used) && owner == old(owner)
      {
        if dinode[inum].typ == 0 {
          var dip := Inode(typ, 0, 0, 0, 0, seq(NDIRECT + 1, _ => 0));
          EmptyAddrs(inode[inum], data);
          OwnFields(sb, inode, data, used, owner, inum, dip);
          assert NoHoles(dip, data) by { forall l | 0 <= l < MAXFILE ensures Addr(dip, data, l) == 0 { } }
          CoveredInode(sb, D(), logged, D(), logged, inum, dip);
          dinode := dinode[inum := dip];
          logged := logged + {Iblock(sb, inum)};
          inode := inode[inum := dip];      // the first ilock reads it in
          return true, inum;
        }
        inum := inum + 1;
      }
      ok := false;
    }

    /** iput of the last reference to an unlinked inode. */
    method Ifree(i: nat)
      requires Valid() && i < |inode|
      modifies this
      ensures Valid() && data == old(data) && |inode| == old(|inode|)
      ensures inode == old(inode)[i := old(inode)[i].(typ := 0, size := 0, addrs := seq(NDIRECT + 1, _ => 0))]
      ensures File(i) == []
      ensures forall j :: 0 <= j < |inode| && j != i ==> File(j) == old(Content(inode[j], data))
      ensures LogsAll() && logged <= old(logged) + BitBlocks(sb) + {Iblock(sb, i)}
    {
      hide Covered, BitBlocks;
      Itrunc(i);
      ghost var inode1 := inode;
      OwnFields(sb, inode, data, used, owner, i, inode[i].(typ := 0));
      inode := inode[i := inode[i].(typ := 0)];
      assert NoHoles(inode[i], data) by {
        assert NoHoles(inode1[i], data);
        forall l | 0 <= l < MAXFILE ensures Addr(inode[i], data, l) == Addr(inode1[i], data, l) { }
      }
      CoveredInode(sb, old(D()), old(logged), D(), logged, i, inode[i]);
      Iupdate(i);
    }

    // ---- filewrite ----

    /** filewrite: chunks of at most MAXCHUNK bytes, each its own transaction.
        The chunks together are one write of the bytes accepted; a write that
        would pass the largest file is cut at a chunk boundary and returns -1.
        No chunk logs more than MAXOPBLOCKS blocks. */
    method Filewrite(i: nat, off: nat, src: seq<Byte>) returns (ok: bool, r: int, off': nat, ghost cs: seq<Change>)
      requires Valid() && i < |inode| && inode[i].typ != 0 && off < UINT && |src| < UINT
      modifies this
      ensures forall k :: 0 <= k < |cs| ==> |cs[k].logged| <= MAXOPBLOCKS && Consistent(sb, cs[k].after)
      ensures !ok ==> Full()
      ensures ok <==> old(FreeCount(used) >= NewBits(inode[i].size, off, Accepted(inode[i].size, off, |src|)))
      ensures ok ==> Valid() && |inode| == old(|inode|) && Chain(sb, old(D()), cs, D())
      ensures ok ==> var n := Accepted(old(inode[i].size), off, |src|);
                     && off' == off + n && r == (if n == |src| then n else -1)
                     && (off > old(inode[i].size) ==> n == 0)
                     && File(i) == (if n == 0 then old(File(i)) else Overwrite(old(File(i)), off, src[..n]))
      ensures ok ==>
                forall j :: 0 <= j < |inode| && j != i ==>
                  inode[j] == old(inode)[j] && File(j) == old(Content(inode[j], data))
    {
      hide Own, Mapped, Image, Content, WriteBound, Overwrite, Accepted, Covered, Chain, Consistent, FreeCount, NewBits;
      ok, off', cs := true, off, [];
      var k := 0;
      ghost var file0, size0 := File(i), inode[i].size;
      OverwriteNone(file0, off, src);
      SizeFits(inode[i], data);
      ChainNone(sb, D());
      NoBits(size0, off);
      while k < |src|
        invariant 0 <= k <= |src| && off' == off + k && Chain(sb, old(D()), cs, D())
        invariant forall c :: 0 <= c < |cs| ==> |cs[c].logged| <= MAXOPBLOCKS && Consistent(sb, cs[c].after)
        invariant Valid() && |inode| == old(|inode|) && inode[i].typ != 0
        invariant k > 0 ==> off <= size0 && off + k <= MAXFILE * BSIZE
        invariant k < |src| ==> k % MAXCHUNK == 0
        invariant old(FreeCount(used)) == FreeCount(used) + NewBits(size0, off, k)
        invariant if off <= size0 then File(i) == Overwrite(file0, off, src[..k])
                  else k == 0 && inode[i].size == size0 && File(i) == file0
        invariant forall j :: 0 <= j < |inode| && j != i ==>
                    inode[j] == old(inode)[j] && File(j) == old(Content(inode[j], data))
      {
        var n1 := if |src| - k > MAXCHUNK then MAXCHUNK else |src| - k;
        OverwriteNext(file0, off, src, k, n1);
        if off <= size0 {
          ChunkFits(inode[i].size, off', n1);
          BitsAdd(size0, off, k, n1);
          AcceptedAtLeast(size0, off, |src|, k, n1);
        }
        logged := {};
        ghost var d1 := D();
        var w;
        ok, w := Writei(i, off', src[k..k + n1]);
        if !ok { return false, -1, off', cs; }
        ChainSnoc(sb, old(D()), cs, d1, Change(d1, D(), logged));
        ValidIsConsistent(sb, D(), owner);
        if w < 0 {
          Rejected(size0, off, |src|, k, n1);
          cs := cs + [Change(d1, D(), logged)];
          break;
        }
        cs := cs + [Change(d1, D(), logged)];
        k := k + n1;
        off' := off' + n1;
      }
      if k == |src| { AcceptedAll(size0, off, |src|); }
      r := if k == |src| then |src| else -1;
    }
  }

  lemma ValidIsConsistent(sb: Super, d: OnDisk, owner: map<nat, Pos>)
    requires Own(sb, d.dinode, d.data, d.used, owner)
             && forall i :: 0 <= i < |d.dinode| ==> NoHoles(d.dinode[i], d.data)
    ensures Consistent(sb, d)
  {
    assert Fsck(sb, d, owner);
  }

  lemma ChainNone(sb: Super, d: OnDisk)
    ensures Chain(sb, d, [], d)
  {
  }

  lemma GrownInode(inode: seq<Inode>, data: seq<Block>, inode': seq<Inode>, data': seq<Block>, i: nat, bn: nat)
    requires Grown(inode, data, inode', data', i, bn)
    ensures i < |inode| == |inode'| && inode' == inode[i := inode[i].(addrs := inode'[i].addrs)]
            && Ind(inode[i]) <= Ind(inode'[i])
  {
  }

  lemma EmptyAddrs(ino: Inode, data: seq<Block>)
    requires NoHoles(ino, data) && ino.size == 0
    ensures ino.addrs == seq(NDIRECT + 1, _ => 0)
  {
    forall k | 0 <= k < NDIRECT ensures ino.addrs[k] == 0 { assert Addr(ino, data, k) == 0; }
  }

  lemma SameContent(ino: Inode, data: seq<Block>, n: Short)
    requires NoHoles(ino, data)
    ensures NoHoles(ino.(nlink := n), data) && Content(ino.(nlink := n), data) == Content(ino, data)
  {
    var ino' := ino.(nlink := n);
    forall k | 0 <= k < MAXFILE ensures Addr(ino', data, k) == Addr(ino, data, k) { }
    forall p | 0 <= p < NBlocks(ino.size) * BSIZE ensures ByteAt(ino', data, p) == ByteAt(ino, data, p) { }
    assert Image(ino', data, NBlocks(ino.size)) == Image(ino, data, NBlocks(ino.size));
  }

  lemma SizeFits(ino: Inode, data: seq<Block>)
    requires NoHoles(ino, data)
    ensures ino.size <= MAXFILE * BSIZE
  {
  }

  lemma OverwriteNone(s: seq<Byte>, off: nat, src: seq<Byte>)
    ensures off <= |s| ==> Overwrite(s, off, src[..0]) == s
  {
  }

  lemma AcceptedAll(size: nat, off: nat, n: nat)
    requires size <= MAXFILE * BSIZE && (n > 0 ==> off <= size && off + n <= MAXFILE * BSIZE)
    ensures Accepted(size, off, n) == n
  {
  }

  const MAXCHUNK := 1536   // ((MAXOPBLOCKS - 1 - 1 - 2) / 2) * 512

  /** How much of an n-byte write at off filewrite takes. */
  function Accepted(size: nat, off: nat, n: nat): nat {
    if off > size then 0
    else if off + n <= MAXFILE * BSIZE then n
    else if off > MAXFILE * BSIZE then 0
    else (MAXFILE * BSIZE - off) / MAXCHUNK * MAXCHUNK
  }

  /** It takes whole chunks as long as the next one fits the largest file, and nothing if the
      write starts past the end of the file. */
  lemma AcceptedIs(size: nat, off: nat, n: nat)
    requires size <= MAXFILE * BSIZE
    ensures var k := Accepted(size, off, n);
            && k <= n && (k == n || k % MAXCHUNK == 0) && (k > 0 ==> off <= size && off + k <= MAXFILE * BSIZE)
            && (k < n ==> off > size || off + k + (if n - k > MAXCHUNK then MAXCHUNK else n - k) > MAXFILE * BSIZE)
  {
  }

  /** A chunk that stays below the largest file is accepted with all before it. */
  lemma AcceptedAtLeast(size: nat, off: nat, n: nat, k: nat, n1: nat)
    requires k < n && off <= size <= MAXFILE * BSIZE && k % MAXCHUNK == 0
             && n1 == (if n - k > MAXCHUNK then MAXCHUNK else n - k)
    ensures off + k + n1 <= MAXFILE * BSIZE ==> NewBits(size, off, k + n1) <= NewBits(size, off, Accepted(size, off, n))
  {
    if off + k + n1 <= MAXFILE * BSIZE {
      if n1 == MAXCHUNK { assert k / MAXCHUNK + 1 <= (MAXFILE * BSIZE - off) / MAXCHUNK; }
      BitsGrow(size, off, k + n1, Accepted(size, off, n));
    }
  }

  /** The blocks that two writes in a row take. */
  lemma BitsAdd(size: nat, off: nat, k: nat, n: nat)
    requires off <= size
    ensures var size' := if off + k <= size then size else off + k;
            NewBits(size, off, k + n) == NewBits(size, off, k) + NewBits(size', off + k, n)
  {
  }

  lemma Rejected(size: nat, off: nat, n: nat, k: nat, n1: nat)
    requires k < n && k % MAXCHUNK == 0 && n1 == (if n - k > MAXCHUNK then MAXCHUNK else n - k)
    requires off <= size ==> off + k <= MAXFILE * BSIZE && off + k + n1 > MAXFILE * BSIZE
    requires off > size ==> k == 0
    ensures k == Accepted(size, off, n)
  {
    if off <= size {
      assert k / MAXCHUNK == (MAXFILE * BSIZE - off) / MAXCHUNK;
    }
  }

  /** A chunk stores into at most four blocks, and into four only when its first
      block is already there: with the bitmap blocks, the indirect block and
      the inode, at most ten blocks are logged. */
  lemma ChunkFits(size: nat, off: nat, n: nat)
    requires off <= size && n <= MAXCHUNK
    ensures WriteBound(size, off, n) <= MAXOPBLOCKS
  {
  }

  /** Overwrite, byte by byte. */
  lemma OverwriteAt(s: seq<Byte>, off: nat, src: seq<Byte>)
    requires off <= |s|
    ensures |Overwrite(s, off, src)| == if off + |src| <= |s| then |s| else off + |src|
    ensures forall p :: 0 <= p < |Overwrite(s, off, src)| ==>
              Overwrite(s, off, src)[p] == if off <= p < off + |src| then src[p - off] else s[p]
  {
  }

  lemma OverwriteNext(s: seq<Byte>, off: nat, src: seq<Byte>, k: nat, m: nat)
    requires k + m <= |src|
    ensures off <= |s| ==> |Overwrite(s, off, src[..k])| == if off + k <= |s| then |s| else off + k
    ensures off <= |s| ==>
              off + k <= |Overwrite(s, off, src[..k])|
              && Overwrite(Overwrite(s, off, src[..k]), off + k, src[k..k + m]) == Overwrite(s, off, src[..k + m])
  {
    hide Overwrite;
    if off <= |s| {
      OverwriteAt(s, off, src[..k]);
      OverwriteAt(Overwrite(s, off, src[..k]), off + k, src[k..k + m]);
      OverwriteAt(s, off, src[..k + m]);
    }
  }

  lemma SliceAppend(s: seq<Byte>, i: nat, j: nat, k: nat)
    requires i <= j <= k <= |s|
    ensures s[i..j] + s[j..k] == s[i..k]
  {
  }

  lemma ReadPiece(ino: Inode, data: seq<Block>, off: nat, m: nat)
    requires NoHoles(ino, data) && off + m <= ino.size && 0 < m && off % BSIZE + m <= BSIZE
    ensures off / BSIZE < MAXFILE && 0 < Addr(ino, data, off / BSIZE) < |data|
    ensures Content(ino, data)[off..off + m] == data[Addr(ino, data, off / BSIZE)].bytes[off % BSIZE..off % BSIZE + m]
  {
    var b := off / BSIZE;
    assert b < NBlocks(ino.size);
    forall p | off <= p < off + m
      ensures Content(ino, data)[p] == data[Addr(ino, data, b)].bytes[off % BSIZE + (p - off)]
    {
      assert p / BSIZE == b && p % BSIZE == off % BSIZE + (p - off);
    }
  }

  lemma LoggedStep(logged0: set<nat>, logged1: set<nat>, logged: set<nat>, more: set<nat>, extra: set<nat>,
                   ind1: set<nat>, ind: set<nat>)
    requires logged1 <= logged0 + more + ind1 && logged <= logged1 + extra + ind && ind1 <= ind
    ensures logged <= logged0 + (more + extra) + ind && |more + extra| <= |more| + |extra|
  {
    UnionSize(more, extra);
  }

  lemma LoggedEnd(more: set<nat>, ino: Inode)
    ensures |more + Ind(ino)| <= |more| + 1
  {
    UnionSize(more, Ind(ino));
  }

  lemma WriteReady(inode0: seq<Inode>, data0: seq<Block>, inode: seq<Inode>, data: seq<Block>, i: nat, off: nat,
                   src: seq<Byte>, tot: nat)
    requires WriteState(inode0, data0, inode, data, i, off, src, tot) && tot < |src|
    ensures i < |inode0| == |inode| && Mapped(inode[i], data, Count(inode0[i].size, off, tot))
    ensures off <= inode0[i].size && (0 < tot ==> (off + tot) % BSIZE == 0)
    ensures (off + tot) / BSIZE < MAXFILE && Count(inode0[i].size, off, tot) <= MAXFILE
    ensures tot + Step(off, |src|, tot) <= |src| && Count(inode0[i].size, off, tot + Step(off, |src|, tot)) <= MAXFILE
  {
    CountStep(inode0[i].size, off, |src|, tot);
  }

  lemma OthersKept(inode0: seq<Inode>, data0: seq<Block>, inode: seq<Inode>, data: seq<Block>, i: nat, off: nat,
                   src: seq<Byte>)
    requires WriteState(inode0, data0, inode, data, i, off, src, |src|)
    requires forall j :: 0 <= j < |inode0| ==> NoHoles(inode0[j], data0)
    ensures forall j :: 0 <= j < |inode0| && j != i ==>
              inode[j] == inode0[j] && NoHoles(inode[j], data) && Content(inode[j], data) == Content(inode0[j], data0)
  {
    forall j | 0 <= j < |inode0| && j != i
      ensures inode[j] == inode0[j] && NoHoles(inode[j], data) && Content(inode[j], data) == Content(inode0[j], data0)
    {
      UntouchedContent(inode0, data0, inode, data, j);
    }
  }

  lemma LoggedSize(before: set<nat>, after: set<nat>, more: set<nat>, b: nat)
    requires after <= before + more
    ensures |after| <= |before| + |more| && |after + {b}| <= |before| + |more| + 1
  {
    SubsetSize(after, before + more);
    UnionSize(before, more);
  }

  ghost function Ind(ino: Inode): set<nat> {
    if |ino.addrs| == NDIRECT + 1 && ino.addrs[NDIRECT] != 0 then {ino.addrs[NDIRECT]} else {}
  }

  lemma BoundStep(size: nat, off: nat, n: nat, tot: nat)
    requires off <= size && tot < n && (0 < tot ==> (off + tot) % BSIZE == 0)
    ensures var m, bn, c := Step(off, n, tot), (off + tot) / BSIZE, Count(size, off, tot);
            && Touched(off, tot) + 1 <= Touched(off, tot + m)
            && var new' := if bn < c then 0 else if c == NDIRECT then 2 else 1;
            && NewBits(size, off, tot) + new' == NewBits(size, off, tot + m)
  {
  }

  lemma NoBits(size: nat, off: nat)
    ensures NewBits(size, off, 0) == 0
  {
  }

  lemma BitsGrow(size: nat, off: nat, m: nat, n: nat)
    requires m <= n
    ensures NewBits(size, off, m) <= NewBits(size, off, n)
  {
    assert NBlocks(off + m) <= NBlocks(off + n);
  }

  /** Blocks a write of n bytes at off stores into. */
  function Touched(off: nat, n: nat): nat {
    if n == 0 then 0 else NBlocks(off + n) - off / BSIZE
  }

  /** Bitmap blocks it may log: one for each block it allocates. */
  function NewBits(size: nat, off: nat, n: nat): nat {
    Count(size, off, n) - NBlocks(size) + if NBlocks(size) <= NDIRECT < Count(size, off, n) then 1 else 0
  }

  function WriteBound(size: nat, off: nat, n: nat): nat {
    Touched(off, n) + NewBits(size, off, n) + 2
  }
}
