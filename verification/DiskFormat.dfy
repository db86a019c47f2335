/** How inodes and the bitmap lie in their blocks (fs.h): eight inodes of 16 words, and
    4096 bits of which bit b is bit b % 8 of byte b / 8. */
module DiskFormat {
  import opened Blocks
  import opened FsState

  // ---- words ----

  function ByteOf(w: nat, k: nat): Byte {
    if k == 0 then w % 0x100
    else if k == 1 then w / 0x100 % 0x100
    else if k == 2 then w / 0x1_0000 % 0x100
    else w / 0x100_0000 % 0x100
  }

  function FromWords(ws: seq<nat>): Block
    requires |ws| == WORDS
  {
    Block(seq(BSIZE, k requires 0 <= k < BSIZE => ByteOf(ws[k / 4], k % 4)))
  }

  lemma ByteOfWord(ws: seq<nat>, i: nat, k: nat)
    requires |ws| == WORDS && i < WORDS && k < 4
    ensures FromWords(ws).bytes[4 * i + k] == ByteOf(ws[i], k)
  {
    hide ByteOf;
    assert (4 * i + k) / 4 == i && (4 * i + k) % 4 == k;
  }

  lemma BytesMakeWord(w: nat)
    requires w < UINT
    ensures ByteOf(w, 0) + 0x100 * ByteOf(w, 1) + 0x1_0000 * ByteOf(w, 2) + 0x100_0000 * ByteOf(w, 3) == w
  {
    Base256(w);
    assert w / 0x100_0000 < 0x100;
  }

  lemma WordBack(ws: seq<nat>, i: nat)
    requires |ws| == WORDS && i < WORDS && ws[i] < UINT
    ensures Word(FromWords(ws), i) == ws[i]
  {
    hide ByteOf, FromWords;
    ByteOfWord(ws, i, 0);
    ByteOfWord(ws, i, 1);
    ByteOfWord(ws, i, 2);
    ByteOfWord(ws, i, 3);
    BytesMakeWord(ws[i]);
  }

  // ---- inodes ----

  function Unsigned(x: Short): nat { if x < 0 then x + 0x1_0000 else x }

  function Signed(w: nat): Short
    requires w < 0x1_0000
  {
    if w < 0x8000 then w else w - 0x1_0000
  }

  /** Word w of a dinode: two pairs of shorts, the size and the addresses. */
  function InodeWord(ino: Inode, w: nat): (r: nat) {
    if w == 0 then Unsigned(ino.typ) + 0x1_0000 * Unsigned(ino.major)
    else if w == 1 then Unsigned(ino.minor) + 0x1_0000 * Unsigned(ino.nlink)
    else if w == 2 then ino.size
    else if w - 3 < |ino.addrs| then ino.addrs[w - 3] else 0
  }

  function InodeWords(inodes: seq<Inode>): (ws: seq<nat>)
    ensures |ws| == WORDS
  {
    seq(WORDS, w requires 0 <= w < WORDS => if w / 16 < |inodes| then InodeWord(inodes[w / 16], w % 16) else 0)
  }

  function InodesBlock(inodes: seq<Inode>): Block { FromWords(InodeWords(inodes)) }

  /** ((struct dinode*)bp->data)[j]. */
  function ReadInode(b: Block, j: nat): Inode
    requires j < IPB
  {
    var w0, w1 := Word(b, 16 * j), Word(b, 16 * j + 1);
    Inode(Signed(w0 % 0x1_0000), Signed(w0 / 0x1_0000), Signed(w1 % 0x1_0000), Signed(w1 / 0x1_0000),
          Word(b, 16 * j + 2),
          seq<nat>(NDIRECT + 1, k requires 0 <= k < NDIRECT + 1 => Word(b, 16 * j + 3 + k)))
  }

  /** The fields are in the range of their C types. */
  ghost predicate Fits(ino: Inode) {
    ino.size < UINT && |ino.addrs| == NDIRECT + 1 && forall k :: 0 <= k < |ino.addrs| ==> ino.addrs[k] < UINT
  }

  lemma PairBack(x: Short, y: Short)
    ensures var w := Unsigned(x) + 0x1_0000 * Unsigned(y);
            w < UINT && Signed(w % 0x1_0000) == x && Signed(w / 0x1_0000) == y
  {
  }

  lemma WordAt(inodes: seq<Inode>, j: nat, w: nat)
    requires j < |inodes| <= IPB && w < 16 && InodeWord(inodes[j], w) < UINT
    ensures Word(InodesBlock(inodes), 16 * j + w) == InodeWord(inodes[j], w)
  {
    var ws := InodeWords(inodes);
    assert (16 * j + w) / 16 == j && (16 * j + w) % 16 == w;
    assert ws[16 * j + w] == InodeWord(inodes[j], w);
    WordBack(ws, 16 * j + w);
  }

  /** An inode stored in its block is the inode read from it. */
  lemma InodeBack(inodes: seq<Inode>, j: nat)
    requires j < |inodes| <= IPB && Fits(inodes[j])
    ensures ReadInode(InodesBlock(inodes), j) == inodes[j]
  {
    hide Word, InodesBlock;
    var ino, r := inodes[j], ReadInode(InodesBlock(inodes), j);
    PairBack(ino.typ, ino.major);
    PairBack(ino.minor, ino.nlink);
    WordAt(inodes, j, 0);
    WordAt(inodes, j, 1);
    WordAt(inodes, j, 2);
    forall k | 0 <= k < NDIRECT + 1 ensures r.addrs[k] == ino.addrs[k] {
      assert InodeWord(ino, 3 + k) == ino.addrs[k];
      WordAt(inodes, j, 3 + k);
    }
  }

  lemma PairHalves(x: Short, y: Short)
    ensures var w := Unsigned(x) + 0x1_0000 * Unsigned(y);
            w < UINT && w % 0x1_0000 == Unsigned(x) && w / 0x1_0000 == Unsigned(y)
  {
  }

  /** Where the fields of inode j lie in its block: 64 bytes from 64 * j on, the four shorts,
      the size, and the addresses. */
  lemma InodeLayout(inodes: seq<Inode>, j: nat)
    requires j < |inodes| <= IPB && Fits(inodes[j])
    ensures var b, ino, at := InodesBlock(inodes), inodes[j], 64 * j;
            && Half(b, at) == Unsigned(ino.typ) && Half(b, at + 2) == Unsigned(ino.major)
            && Half(b, at + 4) == Unsigned(ino.minor) && Half(b, at + 6) == Unsigned(ino.nlink)
            && Quad(b, at + 8) == ino.size
            && forall k :: 0 <= k < NDIRECT + 1 ==> Quad(b, at + 12 + 4 * k) == ino.addrs[k]
  {
    hide Word, InodesBlock, Half, Quad;
    var b, ino := InodesBlock(inodes), inodes[j];
    PairHalves(ino.typ, ino.major);
    PairHalves(ino.minor, ino.nlink);
    WordAt(inodes, j, 0);
    WordAt(inodes, j, 1);
    WordAt(inodes, j, 2);
    WordIsQuad(b, 16 * j);
    WordIsQuad(b, 16 * j + 1);
    WordIsQuad(b, 16 * j + 2);
    forall k | 0 <= k < NDIRECT + 1 ensures Quad(b, 64 * j + 12 + 4 * k) == ino.addrs[k] {
      assert InodeWord(ino, 3 + k) == ino.addrs[k];
      WordAt(inodes, j, 3 + k);
      WordIsQuad(b, 16 * j + 3 + k);
    }
  }

  // ---- bits ----

  function Bit(bits: seq<bool>, i: nat): nat { if i < |bits| && bits[i] then 1 else 0 }

  function Pow2(n: nat): (r: nat)
    ensures r > 0
  {
    if n == 0 then 1 else 2 * Pow2(n - 1)
  }

  /** Bits i to i + n - 1 as a number, the first the lowest. */
  function BitsNum(bits: seq<bool>, i: nat, n: nat): (r: nat)
    ensures r < Pow2(n)
    decreases n
  {
    if n == 0 then 0 else Bit(bits, i) + 2 * BitsNum(bits, i + 1, n - 1)
  }

  function BitsByte(bits: seq<bool>, i: nat): Byte {
    assert Pow2(8) == 256; BitsNum(bits, i, 8)
  }

  function BitsBlock(bits: seq<bool>): Block {
    Block(seq(BSIZE, k requires 0 <= k < BSIZE => BitsByte(bits, 8 * k)))
  }

  /** x & (1 << k), not zero. */
  predicate BitSet(x: nat, k: nat) {
    if k == 0 then x % 2 == 1 else BitSet(x / 2, k - 1)
  }

  predicate ReadBit(b: Block, i: nat)
    requires i < BPB
  {
    BitSet(b.bytes[i / 8], i % 8)
  }

  lemma {:induction false} BitOfNum(bits: seq<bool>, i: nat, n: nat, k: nat)
    requires k < n
    ensures BitSet(BitsNum(bits, i, n), k) <==> Bit(bits, i + k) == 1
    decreases n
  {
    if k > 0 {
      assert BitsNum(bits, i, n) / 2 == BitsNum(bits, i + 1, n - 1);
      BitOfNum(bits, i + 1, n - 1, k - 1);
    }
  }

  lemma BitBack(bits: seq<bool>, i: nat)
    requires i < |bits| <= BPB
    ensures ReadBit(BitsBlock(bits), i) == bits[i]
  {
    BitOfNum(bits, 8 * (i / 8), 8, i % 8);
  }

  lemma {:induction false} BitSetIs(x: nat, k: nat)
    ensures BitSet(x, k) <==> x / Pow2(k) % 2 == 1
  {
    if k > 0 {
      BitSetIs(x / 2, k - 1);
      DivDiv(x, Pow2(k - 1));
    }
  }

  lemma DivDiv(x: nat, m: nat)
    requires m > 0
    ensures x / 2 / m == x / (2 * m)
  {
    var q, r := x / 2 / m, x / 2 % m;
    assert x / 2 == q * m + r;
    assert x == 2 * m * q + (2 * r + x % 2);
    DivUnique(x, 2 * m, q, 2 * r + x % 2);
  }

  lemma DivUnique(x: nat, d: nat, q: nat, r: nat)
    requires r < d && x == d * q + r
    ensures x / d == q
  {
    var q' := x / d;
    assert d * q' <= x < d * q' + d;
    assert q' < q ==> d * (q' + 1) <= d * q;
    assert q' > q ==> d * (q + 1) <= d * q';
  }

  /** Where bit i lies in its block: bit i % 8, counted from the lowest, of byte i / 8. */
  lemma BitLayout(bits: seq<bool>, i: nat)
    requires i < |bits| <= BPB
    ensures BitsBlock(bits).bytes[i / 8] / Pow2(i % 8) % 2 == if bits[i] then 1 else 0
  {
    hide BitsBlock, BitSet;
    BitBack(bits, i);
    BitSetIs(BitsBlock(bits).bytes[i / 8], i % 8);
  }

  // ---- the disk ----

  /** s[lo..lo + n], cut off at the end of s. */
  function Slice<T>(s: seq<T>, lo: nat, n: nat): seq<T> {
    if lo >= |s| then [] else if lo + n <= |s| then s[lo..lo + n] else s[lo..]
  }

  /** What block b holds of the file system d, for the blocks beyond the log. */
  function BlockOf(sb: Super, d: OnDisk, b: nat): Block
    requires sb.inodestart <= b < |d.data|
  {
    if sb.nmeta <= b then d.data[b]
    else if sb.bmapstart <= b then BitsBlock(Slice(d.used, (b - sb.bmapstart) * BPB, BPB))
    else InodesBlock(Slice(d.dinode, (b - sb.inodestart) * IPB, IPB))
  }

  /** The disk holds the file system d. */
  ghost predicate Stored(sb: Super, disk: seq<Block>, d: OnDisk) {
    |disk| == |d.data| && forall b :: sb.inodestart <= b < |disk| ==> disk[b] == BlockOf(sb, d, b)
  }

  /** The file system that a kernel reads from the disk. */
  function Load(sb: Super, disk: seq<Block>): OnDisk
    requires LayoutOk(sb) && |disk| == sb.size
  {
    OnDisk(seq(sb.ninodes, i requires 0 <= i < sb.ninodes => LoadInode(sb, disk, i)),
           seq(sb.size, b requires 0 <= b < sb.size => LoadBit(sb, disk, b)),
           seq(sb.size, b requires 0 <= b < sb.size => if b < sb.nmeta then ZERO_BLOCK else disk[b]))
  }

  function LoadInode(sb: Super, disk: seq<Block>, i: nat): Inode
    requires LayoutOk(sb) && |disk| == sb.size && i < sb.ninodes
  {
    assert i / IPB <= sb.ninodes / IPB; ReadInode(disk[Iblock(sb, i)], i % IPB)
  }

  function LoadBit(sb: Super, disk: seq<Block>, b: nat): bool
    requires LayoutOk(sb) && |disk| == sb.size && b < sb.size
  {
    assert b / BPB <= sb.size / BPB; ReadBit(disk[Bblock(sb, b)], b % BPB)
  }

  /** The file system has the shape of its super block, and nothing is kept in the
      places of the metadata blocks. */
  ghost predicate Sized(sb: Super, d: OnDisk) {
    && LayoutOk(sb) && |d.data| == |d.used| == sb.size && |d.dinode| == sb.ninodes
    && (forall i :: 0 <= i < |d.dinode| ==> Fits(d.dinode[i]))
    && (forall b :: 0 <= b < sb.nmeta ==> d.data[b] == ZERO_BLOCK)
  }

  lemma SliceAt<T>(s: seq<T>, i: nat, n: nat)
    requires i < |s| && n > 0
    ensures var lo := i / n * n; i % n < |Slice(s, lo, n)| <= n && Slice(s, lo, n)[i % n] == s[i]
  {
    assert i / n * n + i % n == i;
  }

  lemma LoadInodeBack(sb: Super, disk: seq<Block>, d: OnDisk, i: nat)
    requires Stored(sb, disk, d) && Sized(sb, d) && i < sb.ninodes
    ensures LoadInode(sb, disk, i) == d.dinode[i]
  {
    hide InodesBlock, ReadInode;
    IblockIn(sb, i);
    SliceAt(d.dinode, i, IPB);
    InodeBack(Slice(d.dinode, i / IPB * IPB, IPB), i % IPB);
  }

  lemma LoadBitBack(sb: Super, disk: seq<Block>, d: OnDisk, b: nat)
    requires Stored(sb, disk, d) && Sized(sb, d) && b < sb.size
    ensures LoadBit(sb, disk, b) == d.used[b]
  {
    hide BitsBlock, ReadBit;
    BblockIn(sb, b);
    SliceAt(d.used, b, BPB);
    BitBack(Slice(d.used, b / BPB * BPB, BPB), b % BPB);
  }

  /** What is stored is what is read back. */
  lemma LoadBack(sb: Super, disk: seq<Block>, d: OnDisk)
    requires Stored(sb, disk, d) && Sized(sb, d)
    ensures Load(sb, disk) == d
  {
    hide LoadInode, LoadBit;
    var r := Load(sb, disk);
    forall i | 0 <= i < sb.ninodes ensures r.dinode[i] == d.dinode[i] { LoadInodeBack(sb, disk, d, i); }
    forall b | 0 <= b < sb.size ensures r.used[b] == d.used[b] { LoadBitBack(sb, disk, d, b); }
    assert r.dinode == d.dinode && r.used == d.used && r.data == d.data;
  }

  /** Where inode i and the bit of block b are on the disk. */
  lemma OnDiskAt(sb: Super, disk: seq<Block>, d: OnDisk, i: nat, b: nat)
    requires Stored(sb, disk, d) && Sized(sb, d) && i < sb.ninodes && b < sb.size
    ensures var at := sb.inodestart + i / 8;
            at < |disk| && Half(disk[at], 64 * (i % 8)) == Unsigned(d.dinode[i].typ)
            && Quad(disk[at], 64 * (i % 8) + 8) == d.dinode[i].size
    ensures var at, k := sb.bmapstart + b / 4096, b % 4096;
            at < |disk| && disk[at].bytes[k / 8] / Pow2(k % 8) % 2 == if d.used[b] then 1 else 0
  {
    hide InodesBlock, BitsBlock, Half, Quad, Pow2;
    IblockIn(sb, i);
    SliceAt(d.dinode, i, IPB);
    InodeLayout(Slice(d.dinode, i / IPB * IPB, IPB), i % IPB);
    BblockIn(sb, b);
    SliceAt(d.used, b, BPB);
    BitLayout(Slice(d.used, b / BPB * BPB, BPB), b % BPB);
  }

  // ---- logged blocks ----

  lemma SameSlice<T>(s: seq<T>, s': seq<T>, lo: nat, n: nat)
    requires |s| == |s'| && forall i :: lo <= i < lo + n && i < |s| ==> s'[i] == s[i]
    ensures Slice(s', lo, n) == Slice(s, lo, n)
  {
  }

  /** A block that was not logged has not changed. */
  lemma UnloggedSame(sb: Super, d: OnDisk, logged0: set<nat>, d': OnDisk, logged: set<nat>, b: nat)
    requires Covered(sb, d, logged0, d', logged) && sb.inodestart <= b < |d.data| && b !in logged
    ensures BlockOf(sb, d', b) == BlockOf(sb, d, b)
  {
    hide BitsBlock, InodesBlock;
    if sb.nmeta <= b {
    } else if sb.bmapstart <= b {
      var lo := (b - sb.bmapstart) * BPB;
      forall i | lo <= i < lo + BPB && i < |d.used| ensures d'.used[i] == d.used[i] { assert Bblock(sb, i) == b; }
      SameSlice(d.used, d'.used, lo, BPB);
    } else {
      var lo := (b - sb.inodestart) * IPB;
      forall i | lo <= i < lo + IPB && i < |d.dinode| ensures d'.dinode[i] == d.dinode[i] { assert Iblock(sb, i) == b; }
      SameSlice(d.dinode, d'.dinode, lo, IPB);
    }
  }
}
