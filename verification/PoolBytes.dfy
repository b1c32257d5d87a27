/** The bytes of the pool's memory.

The allocator stores whole fields, and clients and the copy of Realloc read and write bytes. A
block starts at a multiple of eight, so the memory of a block is its words, the cells at multiples
of eight, and a byte is one of the eight of its word, little-endian.
*/
module PoolBytes {
  import opened PoolMemory
  import opened PoolModel
  import opened PoolSafety
  import opened SlabLevel

  // --- Words

  /** Byte i of a little-endian word. */
  function WordByte(v: nat, i: nat): nat {
    if i == 0 then v % 256 else WordByte(v / 256, i - 1)
  }

  /** The low k bytes of a little-endian word, and the rest of it. */
  function LowBytes(a: nat, k: nat): nat {
    if k == 0 then 0 else a % 256 + 256 * LowBytes(a / 256, k - 1)
  }

  function HighBytes(a: nat, k: nat): nat {
    if k == 0 then a else HighBytes(a / 256, k - 1)
  }

  /** The word whose low k bytes are those of a and whose others those of b. */
  function Splice(a: nat, b: nat, k: nat): nat {
    if k == 0 then b else a % 256 + 256 * Splice(a / 256, b / 256, k - 1)
  }

  /** The word after k bytes of v were stored at its byte `at`. */
  function Insert(word: nat, at: nat, k: nat, v: nat): nat {
    if at == 0 then Splice(v, word, k) else word % 256 + 256 * Insert(word / 256, at - 1, k, v)
  }

  lemma {:induction false} SpliceBytes(a: nat, b: nat, k: nat)
    ensures LowBytes(Splice(a, b, k), k) == LowBytes(a, k)
    ensures HighBytes(Splice(a, b, k), k) == HighBytes(b, k)
    decreases k
  {
    if k > 0 {
      SpliceBytes(a / 256, b / 256, k - 1);
      var s := Splice(a / 256, b / 256, k - 1);
      assert (a % 256 + 256 * s) / 256 == s && (a % 256 + 256 * s) % 256 == a % 256;
    }
  }

  lemma {:induction false} SpliceByte(a: nat, b: nat, k: nat, i: nat)
    ensures WordByte(Splice(a, b, k), i) == WordByte(if i < k then a else b, i)
    decreases k
  {
    if k > 0 {
      var s := Splice(a / 256, b / 256, k - 1);
      assert (a % 256 + 256 * s) / 256 == s && (a % 256 + 256 * s) % 256 == a % 256;
      if i > 0 { SpliceByte(a / 256, b / 256, k - 1, i - 1); }
    }
  }

  /** A part-word store changes exactly its bytes. */
  lemma {:induction false} InsertByte(word: nat, at: nat, k: nat, v: nat, i: nat)
    ensures WordByte(Insert(word, at, k, v), i) == if at <= i < at + k then WordByte(v, i - at) else WordByte(word, i)
    decreases at
  {
    if at == 0 {
      SpliceByte(v, word, k, i);
    } else {
      var s := Insert(word / 256, at - 1, k, v);
      assert (word % 256 + 256 * s) / 256 == s && (word % 256 + 256 * s) % 256 == word % 256;
      if i > 0 { InsertByte(word / 256, at - 1, k, v, i - 1); }
    }
  }

  lemma {:induction false} LowBytesTell(a: nat, b: nat, k: nat, i: nat)
    requires LowBytes(a, k) == LowBytes(b, k) && i < k
    ensures WordByte(a, i) == WordByte(b, i)
    decreases k
  {
    hide LowBytes, WordByte;
    LowBytesStep(a, k);
    LowBytesStep(b, k);
    JoinInjective(a % 256, LowBytes(a / 256, k - 1), b % 256, LowBytes(b / 256, k - 1));
    WordByteStep(a, i);
    WordByteStep(b, i);
    if i > 0 { LowBytesTell(a / 256, b / 256, k - 1, i - 1); }
  }

  lemma LowBytesStep(a: nat, k: nat)
    requires k > 0
    ensures LowBytes(a, k) == a % 256 + 256 * LowBytes(a / 256, k - 1)
  {
  }

  lemma WordByteStep(a: nat, i: nat)
    ensures WordByte(a, i) == if i == 0 then a % 256 else WordByte(a / 256, i - 1)
  {
  }

  lemma JoinInjective(a: nat, x: nat, b: nat, y: nat)
    requires a < 256 && b < 256 && a + 256 * x == b + 256 * y
    ensures a == b && x == y
  {
  }

  // --- Memory

  /** The address of the word a byte belongs to. */
  function CellOf(a: nat): nat {
    a - a % 8
  }

  function ByteAt(m: Memory, a: nat): nat
    requires CellOf(a) in m
  {
    WordByte(m[CellOf(a)], a % 8)
  }

  /** The first n bytes from src in m are the first n bytes from dst in w, word by word. */
  ghost predicate Copied(m: Memory, w: Memory, dst: nat, src: nat, n: nat) {
    && (forall j: nat :: 8 * j + 8 <= n ==>
          src + 8 * j in m && dst + 8 * j in w && w[dst + 8 * j] == m[src + 8 * j])
    && (n % 8 != 0 ==>
          && src + (n - n % 8) in m && dst + (n - n % 8) in w
          && LowBytes(w[dst + (n - n % 8)], n % 8) == LowBytes(m[src + (n - n % 8)], n % 8))
  }

  /** The same, byte by byte. */
  ghost predicate BytesCopied(m: Memory, w: Memory, dst: nat, src: nat, n: nat) {
    forall j: nat :: j < n ==> ByteCopied(m, w, dst, src, j)
  }

  ghost predicate ByteCopied(m: Memory, w: Memory, dst: nat, src: nat, j: nat) {
    CellOf(src + j) in m && CellOf(dst + j) in w && ByteAt(w, dst + j) == ByteAt(m, src + j)
  }

  lemma CopiedBytes(m: Memory, w: Memory, dst: nat, src: nat, n: nat)
    requires Copied(m, w, dst, src, n) && dst % 8 == 0 && src % 8 == 0
    ensures BytesCopied(m, w, dst, src, n)
  {
    forall j: nat | j < n ensures ByteCopied(m, w, dst, src, j) {
      CopiedOne(m, w, dst, src, n, j);
    }
  }

  lemma CopiedOne(m: Memory, w: Memory, dst: nat, src: nat, n: nat, j: nat)
    requires Copied(m, w, dst, src, n) && dst % 8 == 0 && src % 8 == 0 && j < n
    ensures ByteCopied(m, w, dst, src, j)
  {
    hide WordByte, LowBytes;
    var i := j / 8;
    CellInBlock(src, j);
    CellInBlock(dst, j);
    if 8 * i + 8 > n {
      assert n - n % 8 == 8 * i && j % 8 < n % 8;
      LowBytesTell(w[dst + 8 * i], m[src + 8 * i], n % 8, j % 8);
    }
  }

  lemma CellInBlock(p: nat, j: nat)
    requires p % 8 == 0
    ensures CellOf(p + j) == p + 8 * (j / 8) && (p + j) % 8 == j % 8
  {
    assert p == 8 * (p / 8) && j == 8 * (j / 8) + j % 8;
    assert p + j == 8 * (p / 8 + j / 8) + j % 8;
  }

  /** After a store of k bytes of v at a, inside one word, exactly these bytes are changed. */
  lemma StoreBytes(m: Memory, a: nat, k: nat, v: nat)
    requires CellOf(a) in m && a % 8 + k <= 8
    ensures var w := m[CellOf(a) := Insert(m[CellOf(a)], a % 8, k, v)];
      forall x: nat :: CellOf(x) in m ==>
        CellOf(x) in w && ByteAt(w, x) == if a <= x < a + k then WordByte(v, x - a) else ByteAt(m, x)
  {
    hide Insert, WordByte;
    var w := m[CellOf(a) := Insert(m[CellOf(a)], a % 8, k, v)];
    forall x: nat | CellOf(x) in m
      ensures CellOf(x) in w && ByteAt(w, x) == if a <= x < a + k then WordByte(v, x - a) else ByteAt(m, x)
    {
      InsertByte(m[CellOf(a)], a % 8, k, v, x % 8);
    }
  }

  // --- Where the allocator stores

  /** Blocks start with a word. */
  lemma LiveAligned(pre: Pool, p: nat)
    requires PoolInv(pre) && IsLive(pre, p)
    ensures p % 8 == 0
  {
    hide PoolInv, LiveSmall, BlockAt;
    if LiveSmall(pre, p) {
      var b, c, i := LiveSmallIsBlock(pre, p);
      OwnedIsAligned(pre, c);
      BlockAligned(b, c, i);
    } else {
      HeaderAligned(p);
    }
  }

  lemma HeaderAligned(p: nat)
    requires p == HeaderOf(p) + HEADER
    ensures p % 8 == 0
  {
    var q := p / CHUNK;
    assert p == CHUNK * q + HEADER;
    assert p == 8 * (8192 * q + 6);
  }

  lemma {:induction false} BlockSizeWords(b: nat)
    ensures BlockSize(b) % 8 == 0 && BlockSize(b) >= 8
  {
    if b > 0 { BlockSizeWords(b - 1); }
  }

  lemma BlockAligned(b: nat, c: nat, i: nat)
    requires c % CHUNK == 0
    ensures BlockAt(b, c, i) % 8 == 0 && BlockSize(b) % 8 == 0
  {
    hide BlockSize;
    BlockSizeWords(b);
    WordsTimes(i, BlockSize(b));
  }

  lemma WordsTimes(i: nat, d: nat)
    requires d % 8 == 0
    ensures (i * d) % 8 == 0
  {
    var q := d / 8;
    assert d == 8 * q;
    assert i * d == 8 * (i * q);
  }

  /** The fields of a header, offset and width: nTag, dwLastInUseTime, dwFreeCount, sLink,
      lpBinOwner, lpFirstFreeBlock. */
  const FIELDS: seq<(nat, nat)> := [(0, 8), (LAST_AT, 4), (COUNT_AT, 4), (16, 16), (OWNER_AT, 8), (FIRST_AT, 8)]

  function FieldEnd(i: nat): nat
    requires i < |FIELDS|
  {
    FIELDS[i].0 + FIELDS[i].1
  }

  /** They fill the header without overlap: a store to one changes no other. */
  lemma FieldsFillHeader(i: nat, j: nat)
    requires i < j < |FIELDS|
    ensures FIELDS[0].0 == 0 && FieldEnd(i) <= FIELDS[j].0 && FieldEnd(j) <= HEADER && FieldEnd(|FIELDS| - 1) == HEADER
    ensures j == i + 1 ==> FieldEnd(i) == FIELDS[j].0
  {
    assert i == 0 || i == 1 || i == 2 || i == 3 || i == 4;
    assert j == 1 || j == 2 || j == 3 || j == 4 || j == 5;
  }

  /** All eight bytes of a link stored in a block that is not live, of any field of a chunk's or a
      region's header, and of a link stored in a free slot of a superchunk are outside every live
      block. */
  lemma StoresMissLive(pre: Pool, q: nat)
    requires PoolInv(pre) && IsLive(pre, q)
    ensures forall b, c, i: nat :: c in pre.owner && pre.owner[c] == b && i < Blocks(b) && BlockAt(b, c, i) != q ==>
      Apart(BlockAt(b, c, i), 8, q, GetSize(pre, q)) && BlockAt(b, c, i) + 8 <= c + CHUNK
    ensures forall c :: c in pre.owner || c in pre.direct ==> Apart(q, GetSize(pre, q), c, HEADER)
    ensures forall k, i: nat :: k in pre.sup.own && i < SLOTS && SlotAt(k, i) !in pre.owner ==>
      Apart(SlotAt(k, i), 8, q, GetSize(pre, q))
  {
    hide PoolInv, IsLive, GetSize, Blocks, BlockSize, Apart, BlockAt, SlotAt;
    forall b, c, i: nat | c in pre.owner && pre.owner[c] == b && i < Blocks(b) && BlockAt(b, c, i) != q
      ensures Apart(BlockAt(b, c, i), 8, q, GetSize(pre, q)) && BlockAt(b, c, i) + 8 <= c + CHUNK
    {
      LinkMissesLive(pre, b, c, i, q);
    }
    forall c | c in pre.owner || c in pre.direct ensures Apart(q, GetSize(pre, q), c, HEADER) {
      HeaderApart(pre, c, q);
    }
    forall k, i: nat | k in pre.sup.own && i < SLOTS && SlotAt(k, i) !in pre.owner
      ensures Apart(SlotAt(k, i), 8, q, GetSize(pre, q))
    {
      SlotMissesLive(pre, k, i, q);
    }
  }

  lemma LinkMissesLive(pre: Pool, b: nat, c: nat, i: nat, q: nat)
    requires PoolInv(pre) && IsLive(pre, q) && c in pre.owner && pre.owner[c] == b && i < Blocks(b)
    requires BlockAt(b, c, i) != q
    ensures Apart(BlockAt(b, c, i), 8, q, GetSize(pre, q)) && BlockAt(b, c, i) + 8 <= c + CHUNK
  {
    hide PoolInv, LiveSmall, LiveDirect, Blocks, BlockSize, Live;
    BinOfOwner(pre, c);
    LiveExtent(pre, q);
    BlockSizeWords(b);
    BlockInChunk(b, c, i);
    if HeaderOf(q) == c {
      LiveInChunk(pre, c, q);
      var x, h, j := LiveSmallIsBlock(pre, q);
      StridesApart(c + HEADER, i, j, BlockSize(b));
    } else {
      ExtentsApart(pre, c, HeaderOf(q));
    }
  }

  lemma BinOfOwner(pre: Pool, c: nat)
    requires PoolInv(pre) && c in pre.owner
    ensures pre.owner[c] < BINS
  {
    hide LevelInv, Conserved, Supers, Blocks, BlockSize;
  }

  lemma LiveInChunk(pre: Pool, c: nat, q: nat)
    requires PoolInv(pre) && IsLive(pre, q) && HeaderOf(q) == c && c in pre.owner
    ensures LiveSmall(pre, q)
  {
    hide LevelInv, Conserved, Supers, Blocks, BlockSize;
    if c in pre.direct { DirectNotOwned(pre, c); }
  }

  lemma SlotMissesLive(pre: Pool, k: nat, i: nat, q: nat)
    requires PoolInv(pre) && IsLive(pre, q) && k in pre.sup.own && i < SLOTS && SlotAt(k, i) !in pre.owner
    ensures Apart(SlotAt(k, i), 8, q, GetSize(pre, q))
  {
    hide PoolInv, IsLive, GetSize;
    LiveExtent(pre, q);
    var c := HeaderOf(q);
    if c in pre.owner {
      OwnedIsAligned(pre, c);
      SlotIsAligned(pre, k, i);
      AlignedApart(SlotAt(k, i), c);
    } else {
      SlotApartFromRegion(pre, k, i, c);
    }
  }
}
