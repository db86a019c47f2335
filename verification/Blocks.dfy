/** Disk blocks as the kernel sees them: BSIZE bytes, read either as bytes or,
    through a `uint*` cast, as little-endian 32-bit words. */
module Blocks {
  const BSIZE := 512
  const WORDS := 128            // NINDIRECT, the words of one block
  const UINT := 0x1_0000_0000   // 2^32

  type Byte = x: int | 0 <= x < 256

  type Bytes = s: seq<Byte> | |s| == BSIZE witness seq(BSIZE, _ => 0)

  datatype Block = Block(bytes: Bytes)

  function ZeroBytes(): (s: Bytes)
    ensures forall k :: 0 <= k < BSIZE ==> s[k] == 0
  {
    seq(BSIZE, _ => 0)
  }

  const ZERO_BLOCK: Block := Block(ZeroBytes())

  /** `((uint*)b)[i]`. */
  function Word(b: Block, i: nat): (w: nat)
    requires i < WORDS
    ensures w < UINT
  {
    var b0: int, b1: int, b2: int, b3: int := b.bytes[4*i], b.bytes[4*i+1], b.bytes[4*i+2], b.bytes[4*i+3];
    b0 + 0x100 * b1 + 0x1_0000 * b2 + 0x100_0000 * b3
  }

  /** `((uint*)b)[i] = w`. */
  function PutWord(b: Block, i: nat, w: nat): (r: Block)
    requires i < WORDS && w < UINT
    ensures forall j :: 0 <= j < BSIZE && j / 4 != i ==> r.bytes[j] == b.bytes[j]
  {
    Block(b.bytes[4*i := w % 0x100][4*i+1 := w / 0x100 % 0x100][4*i+2 := w / 0x1_0000 % 0x100][4*i+3 := w / 0x100_0000])
  }

  lemma WordOfPutWord(b: Block, i: nat, w: nat, j: nat)
    requires i < WORDS && j < WORDS && w < UINT
    ensures Word(PutWord(b, i, w), j) == if i == j then w else Word(b, j)
  {
    var r, b := PutWord(b, i, w).bytes, b.bytes;
    if i == j {
      Base256(w);
      assert r[4*i] == w % 0x100;
      assert r[4*i+1] == w / 0x100 % 0x100;
      assert r[4*i+2] == w / 0x1_0000 % 0x100;
      assert r[4*i+3] == w / 0x100_0000;
    } else {
      assert r[4*j] == b[4*j] && r[4*j+1] == b[4*j+1] && r[4*j+2] == b[4*j+2] && r[4*j+3] == b[4*j+3];
    }
  }

  lemma Base256(w: nat)
    ensures w == w % 0x100 + 0x100 * (w / 0x100 % 0x100) + 0x1_0000 * (w / 0x1_0000 % 0x100)
                 + 0x100_0000 * (w / 0x100_0000)
  {
    assert w / 0x1_0000 == w / 0x100 / 0x100;
    assert w / 0x100_0000 == w / 0x1_0000 / 0x100;
  }

  /** The little-endian short and int at a byte offset. */
  function Half(b: Block, off: nat): nat
    requires off + 2 <= BSIZE
  {
    var b0: int, b1: int := b.bytes[off], b.bytes[off + 1];
    b0 + 0x100 * b1
  }

  function Quad(b: Block, off: nat): nat
    requires off + 4 <= BSIZE
  {
    Half(b, off) + 0x1_0000 * Half(b, off + 2)
  }

  lemma WordIsQuad(b: Block, i: nat)
    requires i < WORDS
    ensures Word(b, i) == Quad(b, 4 * i)
    ensures Word(b, i) % 0x1_0000 == Half(b, 4 * i) && Word(b, i) / 0x1_0000 == Half(b, 4 * i + 2)
  {
    assert Half(b, 4 * i) < 0x1_0000;
  }

  lemma ZeroBlockWords(i: nat)
    requires i < WORDS
    ensures Word(ZERO_BLOCK, i) == 0
  {
  }
}
