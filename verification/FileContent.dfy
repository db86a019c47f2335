/** Files as byte sequences: what the blocks of an inode hold, and how growing
    a file by a block or storing into one of its blocks changes that. */
module FileContent {
  import opened Blocks
  import opened FsState

  /** How many blocks hold n bytes. */
  function NBlocks(n: nat): nat {
    (n + BSIZE - 1) / BSIZE
  }

  /** Exactly the first n blocks of the file are allocated. */
  ghost predicate Mapped(ino: Inode, data: seq<Block>, n: nat) {
    && Shaped(ino, |data|) && n <= MAXFILE
    && (forall k :: 0 <= k < MAXFILE ==> (Addr(ino, data, k) != 0 <==> k < n))
    && (forall k :: 0 <= k < n ==> Addr(ino, data, k) < |data|)
    && (ino.addrs[NDIRECT] != 0 <==> n > NDIRECT)
  }

  /** No holes: the blocks below ceil(size / BSIZE) are allocated, no others. */
  ghost predicate NoHoles(ino: Inode, data: seq<Block>) {
    Mapped(ino, data, NBlocks(ino.size))
  }

  ghost predicate Fsck(sb: Super, d: OnDisk, owner: map<nat, Pos>) {
    Own(sb, d.dinode, d.data, d.used, owner) && forall i :: 0 <= i < |d.dinode| ==> NoHoles(d.dinode[i], d.data)
  }

  /** A consistent file system: every block in use is metadata or has one owner,
      and no file has a hole. */
  ghost predicate Consistent(sb: Super, d: OnDisk) {
    exists owner :: Fsck(sb, d, owner)
  }

  ghost function ByteAt(ino: Inode, data: seq<Block>, p: nat): Byte
    requires Shaped(ino, |data|) && p < MAXFILE * BSIZE
  {
    var a := Addr(ino, data, p / BSIZE);
    if a < |data| then data[a].bytes[p % BSIZE] else 0
  }

  /** The bytes of the file's first n blocks. */
  ghost function Image(ino: Inode, data: seq<Block>, n: nat): (s: seq<Byte>)
    requires Shaped(ino, |data|) && n <= MAXFILE
    ensures |s| == n * BSIZE
  {
    seq(n * BSIZE, p requires 0 <= p < n * BSIZE => ByteAt(ino, data, p))
  }

  /** The file: its first size bytes. */
  ghost function Content(ino: Inode, data: seq<Block>): (s: seq<Byte>)
    requires NoHoles(ino, data)
    ensures |s| == ino.size
  {
    Image(ino, data, NBlocks(ino.size))[..ino.size]
  }

  ghost function Zeros(n: nat): seq<Byte> {
    seq(n, _ => 0)
  }

  function Splice(s: seq<Byte>, off: nat, piece: seq<Byte>): (r: seq<Byte>)
    requires off + |piece| <= |s|
    ensures |r| == |s|
  {
    s[..off] + piece + s[off + |piece|..]
  }

  /** A write at off of a byte sequence at least that long. */
  ghost function Overwrite(s: seq<Byte>, off: nat, src: seq<Byte>): seq<Byte>
    requires off <= |s|
  {
    if off + |src| <= |s| then Splice(s, off, src) else s[..off] + src
  }

  /** What was written is there, what was before it and after it is as it was, and the file
      has grown if the write went past its end. */
  lemma OverwriteIs(s: seq<Byte>, off: nat, src: seq<Byte>)
    requires off <= |s|
    ensures var r := Overwrite(s, off, src);
            && |r| == (if off + |src| <= |s| then |s| else off + |src|)
            && r[..off] == s[..off] && r[off..off + |src|] == src
            && (off + |src| <= |s| ==> r[off + |src|..] == s[off + |src|..])
  {
  }

  /** Inode and data blocks of file j are the same in both states. */
  ghost predicate Untouched(inode: seq<Inode>, data: seq<Block>, inode': seq<Inode>, data': seq<Block>, j: nat) {
    && |inode'| == |inode| && |data'| == |data| && AllShaped(inode, |data|) && AllShaped(inode', |data'|)
    && j < |inode| && inode'[j] == inode[j]
    && (forall k :: 0 <= k < MAXFILE ==> Addr(inode'[j], data', k) == Addr(inode[j], data, k))
    && (forall k :: 0 <= k < MAXFILE && 0 < Addr(inode[j], data, k) < |data| ==>
          data'[Addr(inode[j], data, k)] == data[Addr(inode[j], data, k)])
  }

  lemma UntouchedTrans(inode: seq<Inode>, data: seq<Block>, inode1: seq<Inode>, data1: seq<Block>, inode2: seq<Inode>,
                       data2: seq<Block>, j: nat)
    requires Untouched(inode, data, inode1, data1, j) && Untouched(inode1, data1, inode2, data2, j)
    ensures Untouched(inode, data, inode2, data2, j)
  {
    forall k | 0 <= k < MAXFILE
      ensures Addr(inode2[j], data2, k) == Addr(inode[j], data, k)
      ensures 0 < Addr(inode[j], data, k) < |data| ==> data2[Addr(inode[j], data, k)] == data[Addr(inode[j], data, k)]
    {
      assert Addr(inode1[j], data1, k) == Addr(inode[j], data, k);
    }
  }

  lemma UntouchedContent(inode: seq<Inode>, data: seq<Block>, inode': seq<Inode>, data': seq<Block>, j: nat)
    requires Untouched(inode, data, inode', data', j) && NoHoles(inode[j], data)
    ensures NoHoles(inode'[j], data') && Content(inode'[j], data') == Content(inode[j], data)
  {
    var n := NBlocks(inode[j].size);
    assert Mapped(inode'[j], data', n) by {
      forall k | 0 <= k < MAXFILE ensures Addr(inode'[j], data', k) == Addr(inode[j], data, k) { }
    }
    forall p | 0 <= p < n * BSIZE ensures ByteAt(inode'[j], data', p) == ByteAt(inode[j], data, p) {
      assert 0 <= p / BSIZE < n;
    }
    assert Image(inode'[j], data', n) == Image(inode[j], data, n);
  }

  /** Allocating block n of file i appends a zero block to it and touches no
      other file. */
  lemma GrowFile(sb: Super, inode: seq<Inode>, data: seq<Block>, inode': seq<Inode>, data': seq<Block>,
                 used': seq<bool>, owner': map<nat, Pos>, i: nat, n: nat)
    requires Grown(inode, data, inode', data', i, n) && Mapped(inode[i], data, n) && n < MAXFILE
    requires Own(sb, inode', data', used', owner') && BlockAt(inode', data', Data(i, n)) != 0
    requires BlockAt(inode', data', Data(i, n)) < |data'| && data'[BlockAt(inode', data', Data(i, n))] == ZERO_BLOCK
    ensures Mapped(inode'[i], data', n + 1)
    ensures Image(inode'[i], data', n + 1) == Image(inode[i], data, n) + Zeros(BSIZE)
    ensures forall j :: 0 <= j < |inode| && j != i ==> Untouched(inode, data, inode', data', j)
  {
    forall k | 0 <= k < MAXFILE && k != n
      ensures Addr(inode'[i], data', k) == Addr(inode[i], data, k)
      ensures k < n ==> data'[Addr(inode[i], data, k)] == data[Addr(inode[i], data, k)]
    {
      assert BlockAt(inode', data', Data(i, k)) == BlockAt(inode, data, Data(i, k));
    }
    assert BlockAt(inode', data', Data(i, n)) == Addr(inode'[i], data', n);
    forall p | 0 <= p < (n + 1) * BSIZE
      ensures Image(inode'[i], data', n + 1)[p] == (Image(inode[i], data, n) + Zeros(BSIZE))[p]
    {
      if p < n * BSIZE { assert 0 <= p / BSIZE < n; } else { assert p / BSIZE == n; }
    }
    forall j | 0 <= j < |inode| && j != i ensures Untouched(inode, data, inode', data', j) {
      forall k | 0 <= k < MAXFILE
        ensures Addr(inode'[j], data', k) == Addr(inode[j], data, k)
        ensures 0 < Addr(inode[j], data, k) < |data| ==> data'[Addr(inode[j], data, k)] == data[Addr(inode[j], data, k)]
      {
        assert BlockAt(inode', data', Data(j, k)) == BlockAt(inode, data, Data(j, k));
      }
    }
  }

  lemma OwnShaped(sb: Super, inode: seq<Inode>, data: seq<Block>, used: seq<bool>, owner: map<nat, Pos>)
    requires Own(sb, inode, data, used, owner)
    ensures AllShaped(inode, |data|) && |data| == |used| == sb.size && |inode| == sb.ninodes
  {
  }

  lemma FreeIsData(sb: Super, inode: seq<Inode>, data: seq<Block>, used: seq<bool>, owner: map<nat, Pos>, b: nat)
    requires Own(sb, inode, data, used, owner) && b < sb.size && !used[b]
    ensures sb.nmeta <= b
  {
  }

  /** Storing a block moves no position, and shows at one position only. */
  lemma StoreMoves(sb: Super, inode: seq<Inode>, data: seq<Block>, used: seq<bool>, owner: map<nat, Pos>, i: nat,
                   k: nat, x: Block, j: nat, l: nat)
    requires Own(sb, inode, data, used, owner) && i < |inode| && j < |inode| && k < MAXFILE && l < MAXFILE
    requires BlockAt(inode, data, Data(i, k)) != 0
    ensures var b := BlockAt(inode, data, Data(i, k));
            && b < |data|
            && var data' := data[b := x];
            && Addr(inode[j], data', l) == Addr(inode[j], data, l)
            && ((j != i || l != k) && 0 < Addr(inode[j], data, l) < |data| ==>
                  data'[Addr(inode[j], data, l)] == data[Addr(inode[j], data, l)])
  {
    var b := BlockAt(inode, data, Data(i, k));
    OwnedOnce(sb, inode, data, used, owner, Data(i, k), Data(j, l));
    StoreBlock(sb, inode, data, used, owner, Data(i, k), x);
    assert BlockAt(inode, data[b := x], Data(j, l)) == BlockAt(inode, data, Data(j, l));
  }

  /** Storing piece at byte o of block k of file i splices it into the file and
      touches no other file. */
  lemma StoreFile(sb: Super, inode: seq<Inode>, data: seq<Block>, used: seq<bool>, owner: map<nat, Pos>, i: nat, n: nat,
                  k: nat, o: nat, piece: seq<Byte>)
    requires Own(sb, inode, data, used, owner) && i < |inode| && Mapped(inode[i], data, n) && k < n
             && o + |piece| <= BSIZE
    ensures var b := BlockAt(inode, data, Data(i, k));
            var data' := data[b := Block(Splice(data[b].bytes, o, piece))];
            && Own(sb, inode, data', used, owner)
            && Mapped(inode[i], data', n)
            && Image(inode[i], data', n) == Splice(Image(inode[i], data, n), k * BSIZE + o, piece)
            && forall j :: 0 <= j < |inode| && j != i ==> Untouched(inode, data, inode, data', j)
  {
    hide Own;
    OwnShaped(sb, inode, data, used, owner);
    var b := BlockAt(inode, data, Data(i, k));
    var x := Block(Splice(data[b].bytes, o, piece));
    var data' := data[b := x];
    StoreBlock(sb, inode, data, used, owner, Data(i, k), x);
    forall j, l | 0 <= j < |inode| && 0 <= l < MAXFILE
      ensures Addr(inode[j], data', l) == Addr(inode[j], data, l)
      ensures (j != i || l != k) && 0 < Addr(inode[j], data, l) < |data| ==>
                data'[Addr(inode[j], data, l)] == data[Addr(inode[j], data, l)]
    {
      StoreMoves(sb, inode, data, used, owner, i, k, x, j, l);
    }
    forall p | 0 <= p < n * BSIZE
      ensures Image(inode[i], data', n)[p] == Splice(Image(inode[i], data, n), k * BSIZE + o, piece)[p]
    {
      assert 0 <= p / BSIZE < n && p == p / BSIZE * BSIZE + p % BSIZE;
      assert Addr(inode[i], data, p / BSIZE) != 0;
    }
  }

  // ---- sequence algebra ----

  lemma SpliceZeros(s: seq<Byte>, off: nat, piece: seq<Byte>, m: nat)
    requires off + |piece| <= |s|
    ensures Splice(s, off, piece) + Zeros(m) == Splice(s + Zeros(m), off, piece)
  {
  }

  lemma SpliceSplice(s: seq<Byte>, off: nat, a: seq<Byte>, b: seq<Byte>)
    requires off + |a| + |b| <= |s|
    ensures Splice(Splice(s, off, a), off + |a|, b) == Splice(s, off, a + b)
  {
  }

  /** One more piece of src spliced in, after a block of zeros if it needs one. */
  lemma SpliceNext(img0: seq<Byte>, pad: nat, off: nat, src: seq<Byte>, tot: nat, m: nat, grow: nat, img1: seq<Byte>,
                   img: seq<Byte>)
    requires tot + m <= |src| && off + tot <= |img0| + pad && off + tot + m <= |img0| + pad + grow
    requires img1 == Splice(img0 + Zeros(pad), off, src[..tot])
    requires img == Splice(img1 + Zeros(grow), off + tot, src[tot..tot+m])
    ensures img == Splice(img0 + Zeros(pad + grow), off, src[..tot+m])
  {
    SpliceZeros(img0 + Zeros(pad), off, src[..tot], grow);
    assert img0 + Zeros(pad) + Zeros(grow) == img0 + Zeros(pad + grow);
    SpliceSplice(img0 + Zeros(pad + grow), off, src[..tot], src[tot..tot+m]);
    assert src[..tot] + src[tot..tot+m] == src[..tot+m];
  }

  /** Padding the image and splicing is overwriting the content. */
  lemma SpliceIsOverwrite(image: seq<Byte>, size: nat, off: nat, src: seq<Byte>, pad: nat)
    requires off <= size <= |image| && off + |src| <= |image| + pad
    ensures var n := if off + |src| <= size then size else off + |src|;
            Splice(image + Zeros(pad), off, src)[..n] == Overwrite(image[..size], off, src)
  {
  }
}
