/** mkfs.c: the layout arithmetic, and the image it builds, as the initial state
    of the file system. */
module Mkfs {
  import opened Blocks
  import opened FsState
  import opened FileContent
  import opened FileSystem

  /** The super block for a disk of that many blocks, inodes and log blocks. */
  function Layout(size: nat, ninodes: nat, nlog: nat): Super {
    var nbitmap := size / (BSIZE * 8) + 1;
    var ninodeblocks := ninodes / IPB + 1;
    Super(size, ninodes, nlog, 2, 2 + nlog, 2 + nlog + ninodeblocks, 2 + nlog + ninodeblocks + nbitmap)
  }

  /** Boot block, super block, log, inode blocks and bitmap blocks follow one
      another without overlap, and all of them are below nmeta. */
  lemma LayoutDisjoint(size: nat, ninodes: nat, nlog: nat, i: nat, b: nat)
    requires i < ninodes && b < size
    ensures var sb := Layout(size, ninodes, nlog);
            && 2 == sb.logstart
            && sb.logstart + sb.nlog <= sb.inodestart <= Iblock(sb, i) < sb.bmapstart <= Bblock(sb, b) < sb.nmeta
            && (sb.nmeta <= size ==> LayoutOk(sb))
  {
    assert i / IPB <= ninodes / IPB;
    assert b / BPB <= size / BPB;
  }

  /** The bitmap with the first k blocks in use. */
  ghost function Bits(n: nat, k: nat): seq<bool> {
    seq(n, b => b < k)
  }

  class Builder {
    const sb: Super
    var inode: seq<Inode>
    var data: seq<Block>
    var freeblock: nat
    var freeinode: nat
    ghost var owner: map<nat, Pos>

    ghost predicate Owned()
      reads this
    {
      && sb.size <= UINT && freeblock <= sb.size && LayoutOk(sb)
      && Own(sb, inode, data, Bits(sb.size, freeblock), owner)
      && (forall b :: 0 <= b < sb.nmeta || freeblock <= b < sb.size ==> data[b] == ZERO_BLOCK)
    }

    /** Every file is whole, its last block padded with zeros. */
    ghost predicate Valid()
      reads this
    {
      && Owned()
      && (forall i :: 0 <= i < |inode| ==> NoHoles(inode[i], data) && Padded(inode[i], data))
      && (forall i :: 0 <= i < |inode| && inode[i].typ == 0 ==> inode[i].size == 0)
      && (forall i :: freeinode <= i < |inode| ==> inode[i].typ == 0)
    }

    constructor (size: nat, ninodes: nat, nlog: nat)
      requires Layout(size, ninodes, nlog).nmeta <= size <= UINT
      ensures Valid() && sb == Layout(size, ninodes, nlog) && freeblock == sb.nmeta && freeinode == 1
      ensures |inode| == ninodes
      ensures forall i :: 0 <= i < ninodes ==> inode[i].typ == 0 && inode[i].nlink == 0 && inode[i].size == 0
    {
      sb := Layout(size, ninodes, nlog);
      var empty := Inode(0, 0, 0, 0, 0, seq(NDIRECT + 1, _ => 0));
      inode := seq(ninodes, _ => empty);
      data := seq(size, _ => ZERO_BLOCK);
      freeblock := Layout(size, ninodes, nlog).nmeta;
      freeinode := 1;
      owner := map[];
      new;
      forall i | 0 <= i < |inode| ensures NoHoles(inode[i], data) && Padded(inode[i], data) {
        forall l | 0 <= l < MAXFILE ensures Addr(inode[i], data, l) == 0 { }
      }
    }

    /** ialloc. */
    method Ialloc(typ: Short) returns (inum: nat)
      requires Valid() && typ != 0 && freeinode < |inode|
      modifies this`inode, this`freeinode
      ensures Valid() && inum == old(freeinode) && freeinode == inum + 1
      ensures inode == old(inode)[inum := Inode(typ, 0, 0, 1, 0, seq(NDIRECT + 1, _ => 0))]
    {
      inum := freeinode;
      freeinode := freeinode + 1;
      var din := Inode(typ, 0, 0, 1, 0, seq(NDIRECT + 1, _ => 0));
      EmptyAddrs(inode[inum], data);
      OwnFields(sb, inode, data, Bits(sb.size, freeblock), owner, inum, din);
      inode := inode[inum := din];
      assert NoHoles(din, data) by { forall l | 0 <= l < MAXFILE ensures Addr(din, data, l) == 0 { } }
    }

    /** The address of block k of file i, from freeblock if there is none. */
    method MapBlock(i: nat, k: nat) returns (x: nat)
      requires Owned() && i < |inode| && k < MAXFILE
      requires var indirect := k >= NDIRECT && inode[i].addrs[NDIRECT] == 0;
               freeblock + (if Addr(inode[i], data, k) != 0 then 0 else if indirect then 2 else 1) <= sb.size
      modifies this`inode, this`data, this`freeblock, this`owner
      ensures Owned() && x == BlockAt(inode, data, Data(i, k)) && x != 0
      ensures Addr(old(inode)[i], old(data), k) != 0 ==>
                inode == old(inode) && data == old(data) && freeblock == old(freeblock) && owner == old(owner)
      ensures Addr(old(inode)[i], old(data), k) == 0 ==>
                && Grown(old(inode), old(data), inode, data, i, k) && data[x] == ZERO_BLOCK
                && freeblock == old(freeblock) + (if k >= NDIRECT && old(inode)[i].addrs[NDIRECT] == 0 then 2 else 1)
    {
      hide Word, Grown;
      if k < NDIRECT {
        if inode[i].addrs[k] == 0 { NewDirect(i, k); }
        x := inode[i].addrs[k];
      } else {
        if inode[i].addrs[NDIRECT] == 0 { NewIndirect(i, k); }
        x := NewEntry(i, k);
        if old(inode)[i].addrs[NDIRECT] == 0 { GrownTrans(old(inode), old(data), inode, old(data), inode, data, i, k); }
      }
    }

    method NewDirect(i: nat, k: nat)
      requires Owned() && i < |inode| && k < NDIRECT && inode[i].addrs[k] == 0 && freeblock < sb.size
      modifies this`inode, this`freeblock, this`owner
      ensures Owned() && Grown(old(inode), data, inode, data, i, k) && inode[i].addrs[k] == old(freeblock) != 0
      ensures freeblock == old(freeblock) + 1 && data[old(freeblock)] == ZERO_BLOCK
    {
      hide Grown;
      assert data[freeblock := ZERO_BLOCK] == data;
      assert Bits(sb.size, freeblock)[freeblock := true] == Bits(sb.size, freeblock + 1);
      SetDirect(sb, inode, data, Bits(sb.size, freeblock), owner, i, k, freeblock);
      inode := inode[i := inode[i].(addrs := inode[i].addrs[k := freeblock])];
      owner := owner[freeblock := Data(i, k)];
      freeblock := freeblock + 1;
    }

    method NewIndirect(i: nat, k: nat)
      requires Owned() && i < |inode| && NDIRECT <= k < MAXFILE && inode[i].addrs[NDIRECT] == 0 && freeblock < sb.size
      modifies this`inode, this`freeblock, this`owner
      ensures Owned() && Grown(old(inode), data, inode, data, i, k) && Addr(inode[i], data, k) == 0
              && inode[i].addrs[NDIRECT] != 0
      ensures freeblock == old(freeblock) + 1
    {
      assert data[freeblock := ZERO_BLOCK] == data;
      assert Bits(sb.size, freeblock)[freeblock := true] == Bits(sb.size, freeblock + 1);
      SetIndirect(sb, inode, data, Bits(sb.size, freeblock), owner, i, k, freeblock);
      inode := inode[i := inode[i].(addrs := inode[i].addrs[NDIRECT := freeblock])];
      owner := owner[freeblock := Indirect(i)];
      freeblock := freeblock + 1;
      assert BlockAt(inode, data, Data(i, k)) == Addr(inode[i], data, k);
    }

    method NewEntry(i: nat, k: nat) returns (x: nat)
      requires Owned() && i < |inode| && NDIRECT <= k < MAXFILE && inode[i].addrs[NDIRECT] != 0
      requires Addr(inode[i], data, k) == 0 ==> freeblock < sb.size
      modifies this`data, this`freeblock, this`owner
      ensures Owned() && x == BlockAt(inode, data, Data(i, k)) && x != 0
      ensures Addr(inode[i], old(data), k) != 0 ==>
                data == old(data) && freeblock == old(freeblock) && owner == old(owner)
      ensures Addr(inode[i], old(data), k) == 0 ==>
                Grown(inode, old(data), inode, data, i, k) && data[x] == ZERO_BLOCK && freeblock == old(freeblock) + 1
    {
      hide Word, PutWord, Grown;
      var ind := inode[i].addrs[NDIRECT];
      x := Word(data[ind], k - NDIRECT);
      assert x == BlockAt(inode, data, Data(i, k));
      if x == 0 {
        assert data[freeblock := ZERO_BLOCK] == data;
        assert Bits(sb.size, freeblock)[freeblock := true] == Bits(sb.size, freeblock + 1);
        SetEntry(sb, inode, data, Bits(sb.size, freeblock), owner, i, k, freeblock);
        assert BlockAt(inode, data, Indirect(i)) == ind;
        x := freeblock;
        freeblock := freeblock + 1;
        data := data[ind := PutWord(data[ind], k - NDIRECT, x)];
        owner := owner[x := Data(i, k)];
      }
    }

    /** One iteration of iappend's loop. */
    method AppendBlock(i: nat, off: nat, piece: seq<Byte>, ghost n: nat)
      requires Owned() && i < |inode| && Mapped(inode[i], data, n)
      requires off / BSIZE <= n && off / BSIZE < MAXFILE && off % BSIZE + |piece| <= BSIZE
      requires freeblock + (if off / BSIZE < n then 0 else if n == NDIRECT then 2 else 1) <= sb.size
      modifies this`inode, this`data, this`freeblock, this`owner
      ensures Owned() && AllShaped(inode, |data|) && inode == old(inode)[i := old(inode)[i].(addrs := inode[i].addrs)]
      ensures freeblock == old(freeblock) + (if off / BSIZE < n then 0 else if n == NDIRECT then 2 else 1)
      ensures off / BSIZE < n ==>
                && inode == old(inode) && Mapped(inode[i], data, n)
                && Image(inode[i], data, n) == Splice(Image(old(inode)[i], old(data), n), off, piece)
      ensures off / BSIZE == n ==>
                && Mapped(inode[i], data, n + 1)
                && Image(inode[i], data, n + 1) == Splice(Image(old(inode)[i], old(data), n) + Zeros(BSIZE), off, piece)
      ensures forall j :: 0 <= j < |inode| && j != i ==> Untouched(old(inode), old(data), inode, data, j)
    {
      hide Mapped, Image, Grown, Untouched, Splice, Zeros;
      var bn := off / BSIZE;
      MappedShaped(inode[i], data, n);
      var x := MapBlock(i, bn);
      ghost var inode1, data1, used, n1 := inode, data, Bits(sb.size, freeblock), if bn < n then n else n + 1;
      if bn == n {
        GrownInode(old(inode), old(data), inode, data, i, bn);
        GrowFile(sb, old(inode), old(data), inode, data, used, owner, i, n);
      }
      StoreFile(sb, inode, data, used, owner, i, n1, bn, off % BSIZE, piece);
      data := data[x := Block(Splice(data[x].bytes, off % BSIZE, piece))];
      forall j | 0 <= j < |inode| && j != i ensures Untouched(old(inode), old(data), inode, data, j) {
        if bn == n { UntouchedTrans(old(inode), old(data), inode1, data1, inode, data, j); }
      }
    }

    method AppendLoop(i: nat, off: nat, src: seq<Byte>)
      requires Owned() && i < |inode| && WriteState(inode, data, inode, data, i, off, src, 0)
      requires freeblock + NewBits(inode[i].size, off, |src|) <= sb.size
      modifies this`inode, this`data, this`freeblock, this`owner
      ensures Owned() && WriteState(old(inode), old(data), inode, data, i, off, src, |src|)
      ensures freeblock == old(freeblock) + NewBits(old(inode)[i].size, off, |src|)
    {
      hide WriteState, Mapped, Image, Own, Untouched, Step, Count, NBlocks, NewBits, Splice, Zeros;
      ghost var inode0, data0, size0, free0 := inode, data, inode[i].size, freeblock;
      var tot := 0;
      NoBits(size0, off);
      while tot < |src|
        invariant Owned() && tot <= |src| && |inode| == |inode0|
                  && WriteState(inode0, data0, inode, data, i, off, src, tot)
        invariant freeblock == free0 + NewBits(size0, off, tot)
                  && NewBits(size0, off, tot) <= NewBits(size0, off, |src|)
      {
        WriteReady(inode0, data0, inode, data, i, off, src, tot);
        CountStep(size0, off, |src|, tot);
        BoundStep(size0, off, |src|, tot);
        var m := Step(off, |src|, tot);
        BitsGrow(size0, off, tot + m, |src|);
        ghost var inode1, data1 := inode, data;
        AppendBlock(i, off + tot, src[tot..tot+m], Count(size0, off, tot));
        WriteNext(inode0, data0, inode1, data1, inode, data, i, off, src, tot);
        tot := tot + m;
      }
    }

    /** iappend: the bytes go at the end of the file. It needs room below the
        largest file and on the disk. */
    method Iappend(i: nat, src: seq<Byte>)
      requires Valid() && i < |inode| && inode[i].typ != 0
      requires inode[i].size + |src| <= MAXFILE * BSIZE
               && freeblock + NewBits(inode[i].size, inode[i].size, |src|) <= sb.size
      modifies this`inode, this`data, this`freeblock, this`owner
      ensures Valid() && |inode| == old(|inode|)
      ensures Content(inode[i], data) == old(Content(inode[i], data)) + src
      ensures inode[i] == old(inode)[i].(size := inode[i].size, addrs := inode[i].addrs)
      ensures forall j :: 0 <= j < |inode| && j != i ==>
                inode[j] == old(inode)[j] && Content(inode[j], data) == old(Content(inode[j], data))
      ensures freeblock == old(freeblock) + NewBits(old(inode)[i].size, old(inode)[i].size, |src|)
    {
      hide Own, Mapped, Image, Content, Padded, NewBits, Untouched;
      ghost var inode0, data0 := inode, data;
      var off := inode[i].size;
      ValidShaped(inode, data, sb, Bits(sb.size, freeblock), owner);
      WriteStart(inode, data, i, off, src);
      AppendLoop(i, off, src);
      AppendDone(inode0, data0, inode, data, i, src);
      OthersKept(inode0, data0, inode, data, i, off, src);
      OthersPadded(inode0, data0, inode, data, i, src);
      OwnFields(sb, inode, data, Bits(sb.size, freeblock), owner, i, inode[i].(size := off + |src|));
      inode := inode[i := inode[i].(size := off + |src|)];
    }

    /** The root directory's size is rounded up by a block, even when it is
        already a multiple of the block size, which leaves a hole. */
    method FixRoot(root: nat)
      requires Valid() && root < |inode| && inode[root].typ != 0
      modifies this`inode
      ensures Owned()
              && inode == old(inode)[root := old(inode)[root].(size := (old(inode)[root].size / BSIZE + 1) * BSIZE)]
      ensures NoHoles(inode[root], data) <==> old(inode)[root].size % BSIZE != 0
      ensures old(inode)[root].size % BSIZE != 0 ==>
                && Valid()
                && var more := inode[root].size - old(inode)[root].size;
                && Content(inode[root], data) == old(Content(inode[root], data)) + Zeros(more)
    {
      var off := (inode[root].size / BSIZE + 1) * BSIZE;
      RoundUp(inode[root], data, off);
      OwnFields(sb, inode, data, Bits(sb.size, freeblock), owner, root, inode[root].(size := off));
      inode := inode[root := inode[root].(size := off)];
    }

    /** balloc: one bitmap block, with a bit set for each block handed out. */
    method Balloc() returns (bits: seq<bool>)
      requires freeblock < BSIZE * 8
      ensures |bits| == BSIZE * 8 && forall b :: 0 <= b < |bits| ==> (bits[b] <==> b < freeblock)
    {
      bits := seq(BSIZE * 8, _ => false);
      var i := 0;
      while i < freeblock
        invariant 0 <= i <= freeblock && |bits| == BSIZE * 8
        invariant forall b :: 0 <= b < |bits| ==> (bits[b] <==> b < i)
      {
        bits := bits[i := true];
        i := i + 1;
      }
    }
  }

  /** A root directory of 32 entries, ".", ".." and 30 programs, fills its block; mkfs
      then rounds its size up over a block that is not there. */
  method FullRoot(entries: seq<Byte>) returns (img: Builder, root: nat)
    requires |entries| == BSIZE
    ensures img.sb == Layout(1000, 200, 30) && root == 1 < |img.inode| && img.inode[root].size == 2 * BSIZE
    ensures !NoHoles(img.inode[root], img.data)
  {
    hide Own, Content, NoHoles, Padded;
    img := new Builder(1000, 200, 30);
    OwnShaped(img.sb, img.inode, img.data, Bits(img.sb.size, img.freeblock), img.owner);
    root := img.Ialloc(1);
    img.Iappend(root, entries);
    img.FixRoot(root);
  }

  /** The finished image, mounted: the kernel starts in a state in which every
      block is owned once, no file has a hole and the bitmap is exact. Bitmap
      blocks after the first are zero. */
  method Mount(img: Builder) returns (fs: Fs)
    requires img.Valid() && img.freeblock < BSIZE * 8
    ensures fs.Valid() && fresh(fs) && fs.sb == img.sb && fs.inode == img.inode && fs.data == img.data
            && fs.logged == {}
  {
    var bits := img.Balloc();
    var used := seq(img.sb.size, b requires 0 <= b < img.sb.size => b < BSIZE * 8 && bits[b]);
    fs := new Fs(img.sb, img.inode, img.data, used, img.owner);
    assert used == Bits(img.sb.size, img.freeblock);
  }

  lemma ValidShaped(inode: seq<Inode>, data: seq<Block>, sb: Super, used: seq<bool>, owner: map<nat, Pos>)
    requires Own(sb, inode, data, used, owner)
    ensures AllShaped(inode, |data|)
  {
  }

  lemma ResizedImage(ino: Inode, data: seq<Block>, n: nat, size: nat)
    requires Mapped(ino, data, n)
    ensures Mapped(ino.(size := size), data, n) && Image(ino.(size := size), data, n) == Image(ino, data, n)
  {
    forall k | 0 <= k < MAXFILE ensures Addr(ino.(size := size), data, k) == Addr(ino, data, k) { }
    forall p | 0 <= p < n * BSIZE ensures ByteAt(ino.(size := size), data, p) == ByteAt(ino, data, p) { }
  }

  lemma AppendDone(inode0: seq<Inode>, data0: seq<Block>, inode: seq<Inode>, data: seq<Block>, i: nat, src: seq<Byte>)
    requires i < |inode0| && WriteState(inode0, data0, inode, data, i, inode0[i].size, src, |src|)
    requires NoHoles(inode0[i], data0) && Padded(inode0[i], data0)
    ensures var ino := inode[i].(size := inode0[i].size + |src|);
            && NoHoles(ino, data) && Padded(ino, data)
            && Content(ino, data) == Content(inode0[i], data0) + src
  {
    hide Mapped, ByteAt, Image;
    var size := inode0[i].size;
    WriteDone(inode0, data0, inode, data, i, size, src);
    var n0, n := NBlocks(size), NBlocks(size + |src|);
    assert Count(size, size, |src|) == n;
    ResizedImage(inode[i], data, n, size + |src|);
    assert src[..|src|] == src;
    PadSplice(Content(inode0[i], data0), n0 * BSIZE - size, (n - n0) * BSIZE, src);
  }

  lemma PadSplice(c: seq<Byte>, pad: nat, more: nat, src: seq<Byte>)
    requires |src| <= pad + more
    ensures Splice(c + Zeros(pad) + Zeros(more), |c|, src) == c + src + Zeros(pad + more - |src|)
  {
  }

  lemma OthersPadded(inode0: seq<Inode>, data0: seq<Block>, inode: seq<Inode>, data: seq<Block>, i: nat, src: seq<Byte>)
    requires i < |inode0| && WriteState(inode0, data0, inode, data, i, inode0[i].size, src, |src|)
    requires forall j :: 0 <= j < |inode0| ==> NoHoles(inode0[j], data0) && Padded(inode0[j], data0)
    ensures forall j :: 0 <= j < |inode0| && j != i ==> NoHoles(inode[j], data) && Padded(inode[j], data)
  {
    forall j | 0 <= j < |inode0| && j != i ensures NoHoles(inode[j], data) && Padded(inode[j], data) {
      UntouchedContent(inode0, data0, inode, data, j);
      var n := NBlocks(inode[j].size);
      forall p | 0 <= p < n * BSIZE ensures ByteAt(inode[j], data, p) == ByteAt(inode0[j], data0, p) {
        assert 0 <= p / BSIZE < n && Addr(inode0[j], data0, p / BSIZE) != 0;
      }
      assert Image(inode[j], data, n) == Image(inode0[j], data0, n);
    }
  }

  lemma RoundUp(ino: Inode, data: seq<Block>, off: nat)
    requires NoHoles(ino, data) && Padded(ino, data) && off == (ino.size / BSIZE + 1) * BSIZE
    ensures var r := ino.(size := off);
            && (NoHoles(r, data) <==> ino.size % BSIZE != 0)
            && (ino.size % BSIZE != 0 ==>
                  Padded(r, data) && Content(r, data) == Content(ino, data) + Zeros(off - ino.size))
  {
    var r := ino.(size := off);
    var n := NBlocks(ino.size);
    if ino.size % BSIZE == 0 {
      assert NBlocks(off) == n + 1;
      if n < MAXFILE { assert Addr(r, data, n) == Addr(ino, data, n) == 0; }
    } else {
      assert NBlocks(off) == n;
      forall k | 0 <= k < MAXFILE ensures Addr(r, data, k) == Addr(ino, data, k) { }
      assert Image(r, data, n) == Image(ino, data, n) by {
        forall p | 0 <= p < n * BSIZE ensures ByteAt(r, data, p) == ByteAt(ino, data, p) { }
      }
    }
  }

  /** The last block of a file is zero beyond the file's end. */
  ghost predicate Padded(ino: Inode, data: seq<Block>)
    requires NoHoles(ino, data)
  {
    var n := NBlocks(ino.size);
    Image(ino, data, n) == Content(ino, data) + Zeros(n * BSIZE - ino.size)
  }
}
