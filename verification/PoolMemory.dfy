/** How the pool's state lies in memory: chunk headers, threaded free lists, superchunk records.

Memory is a map from addresses to values whose keys are the committed addresses; an access
outside the keys would be a fault. A cell holds what was stored at its address in the width of
its field: the fields of a header have cells of their own, and so has every word of a block, at
the multiples of eight. PoolBytes shows that the bytes of these never overlap.
*/
module PoolMemory {
  import opened SlabLevel
  import opened PoolModel
  import opened PoolSafety

  type Memory = map<nat, nat>

  // The fields of a chunk header in the 64-bit layout. The list links take the 16 bytes at 16.
  const LAST_AT: nat := 8
  const COUNT_AT: nat := 12
  const OWNER_AT: nat := 32
  const FIRST_AT: nat := 40

  const TAG_MARK: nat := 0xDE324F1A8492B311

  function Xor(a: nat, b: nat): nat
    decreases a + b
  {
    if a == 0 then b
    else if b == 0 then a
    else 2 * Xor(a / 2, b / 2) + (a % 2 + b % 2) % 2
  }

  function TagOf(c: nat): nat {
    Xor(TAG_MARK, c)
  }

  /** A tag belongs to one header only, and tells which: the mark taken off again is its address. */
  lemma TagTells(c: nat)
    ensures Xor(0xDE324F1A8492B311, TagOf(c)) == c
  {
    XorTwice(TAG_MARK, c);
  }

  lemma {:induction false} XorTwice(a: nat, b: nat)
    ensures Xor(a, Xor(a, b)) == b
    decreases a + b
  {
    if a + b > 0 {
      hide Xor;
      XorTwice(a / 2, b / 2);
      XorHalves(a, b);
      XorHalves(a, Xor(a, b));
      BitTwice(a % 2, b % 2);
      SameHalves(Xor(a, Xor(a, b)), b);
    }
  }

  lemma XorHalves(a: nat, b: nat)
    ensures Xor(a, b) / 2 == Xor(a / 2, b / 2) && Xor(a, b) % 2 == (a % 2 + b % 2) % 2
  {
  }

  lemma SameHalves(x: nat, y: nat)
    requires x / 2 == y / 2 && x % 2 == y % 2
    ensures x == y
  {
  }

  lemma BitTwice(a: nat, b: nat)
    requires a < 2 && b < 2
    ensures (a + (a + b) % 2) % 2 == b
  {
  }

  // The static storage of the bin objects; any distinct non-null addresses would do.
  const BIN_MEM: nat := 0x8000
  const BIN_BYTES: nat := 0x100

  function BinObject(b: nat): nat {
    BIN_MEM + b * BIN_BYTES
  }

  function BinOfObject(a: nat): nat
    requires a >= BIN_MEM
  {
    (a - BIN_MEM) / BIN_BYTES
  }

  // --- Agreement of two memories

  ghost predicate Mapped(m: Memory, lo: nat, n: nat) {
    forall a :: lo <= a < lo + n ==> a in m
  }

  ghost predicate AgreeOn(m: Memory, w: Memory, lo: nat, n: nat) {
    forall a :: lo <= a < lo + n ==> a in m && a in w && w[a] == m[a]
  }

  /** w differs from m at most on the n addresses from lo. */
  ghost predicate OnlyIn(m: Memory, w: Memory, lo: nat, n: nat) {
    && (forall a :: a in m <==> a in w)
    && (forall a :: a in m && !(lo <= a < lo + n) ==> w[a] == m[a])
  }

  /** Pages committed by VirtualAlloc are zero. */
  function Commit(m: Memory, lo: nat, n: nat): (w: Memory)
    ensures forall a :: a in w <==> a in m || lo <= a < lo + n
    ensures forall a :: a in m && !(lo <= a < lo + n) ==> w[a] == m[a]
    ensures forall a :: lo <= a < lo + n ==> w[a] == 0
  {
    if n == 0 then m else Commit(m, lo, n - 1)[lo + n - 1 := 0]
  }

  function Release(m: Memory, lo: nat, n: nat): Memory {
    map a | a in m && !(lo <= a < lo + n) :: m[a]
  }

  // --- Threaded free lists

  function At(start: nat, stride: nat, i: nat): nat {
    start + i * stride
  }

  lemma AtInjective(start: nat, stride: nat, i: nat, j: nat)
    requires stride > 0 && i != j
    ensures At(start, stride, i) != At(start, stride, j)
  {
    StridesApart(start, i, j, stride);
  }

  /** The list that starts at `first` runs through the blocks with the given numbers, in this
      order, each block's first word pointing to the next block and the last one's being null. */
  ghost predicate Threaded(m: Memory, first: nat, start: nat, stride: nat, free: seq<nat>) {
    && first == Link(start, stride, free, 0)
    && forall j :: 0 <= j < |free| ==>
         && At(start, stride, free[j]) in m
         && m[At(start, stride, free[j])] == Link(start, stride, free, j + 1)
  }

  /** The pointer to the j-th block of a free list, null past its end. */
  function Link(start: nat, stride: nat, free: seq<nat>, j: nat): nat {
    if j < |free| then At(start, stride, free[j]) else 0
  }

  lemma ThreadPop(m: Memory, first: nat, start: nat, stride: nat, free: seq<nat>)
    requires Threaded(m, first, start, stride, free) && free != []
    ensures first in m && Threaded(m, m[first], start, stride, free[1..])
  {
    var rest := free[1..];
    forall j | 0 <= j < |rest|
      ensures At(start, stride, rest[j]) in m
      ensures m[At(start, stride, rest[j])] == Link(start, stride, rest, j + 1)
    {
      assert rest[j] == free[j + 1];
      assert Link(start, stride, rest, j + 1) == Link(start, stride, free, j + 2);
    }
    assert m[At(start, stride, free[0])] == Link(start, stride, free, 1);
  }

  lemma ThreadFrame(m: Memory, w: Memory, first: nat, start: nat, stride: nat, free: seq<nat>)
    requires Threaded(m, first, start, stride, free)
    requires forall i :: i in free ==> At(start, stride, i) in w && w[At(start, stride, i)] == m[At(start, stride, i)]
    ensures Threaded(w, first, start, stride, free)
  {
    forall j | 0 <= j < |free|
      ensures At(start, stride, free[j]) in w
      ensures w[At(start, stride, free[j])] == m[At(start, stride, free[j])]
    {
      assert free[j] in free;
    }
  }

  lemma ThreadPush(m: Memory, first: nat, start: nat, stride: nat, free: seq<nat>, i: nat)
    requires Threaded(m, first, start, stride, free)
    requires stride > 0 && i !in free
    ensures Threaded(m[At(start, stride, i) := first], At(start, stride, i), start, stride, [i] + free)
  {
    var w := m[At(start, stride, i) := first];
    var more := [i] + free;
    forall x | x in free ensures At(start, stride, x) != At(start, stride, i) {
      AtInjective(start, stride, x, i);
    }
    forall j | 0 <= j < |more|
      ensures At(start, stride, more[j]) in w
      ensures w[At(start, stride, more[j])] == Link(start, stride, more, j + 1)
    {
      assert Link(start, stride, more, j + 1) == Link(start, stride, free, j);
      if j > 0 { assert more[j] == free[j - 1]; }
    }
  }

  // --- The representation of the pool

  /** A superchunk's record; it is identified by the address of the memory it describes. */
  datatype SuperRec = SuperRec(last: nat, freeCount: nat, first: nat)

  ghost predicate ChunkRep(m: Memory, b: nat, c: nat, o: Owner) {
    && Mapped(m, c, CHUNK)
    && m[c] == TagOf(c)
    && m[c + OWNER_AT] == BinObject(b)
    && m[c + LAST_AT] == o.last
    && m[c + COUNT_AT] == |o.free|
    && Threaded(m, m[c + FIRST_AT], c + HEADER, BlockSize(b), o.free)
  }

  ghost predicate RecRep(m: Memory, r: SuperRec, k: nat, o: Owner) {
    && Mapped(m, k, SUPERCHUNK)
    && r.last == o.last
    && r.freeCount == |o.free|
    && Threaded(m, r.first, k, CHUNK, o.free)
  }

  ghost predicate SuperRep(m: Memory, recs: map<nat, SuperRec>, sups: Level) {
    && recs.Keys == sups.own.Keys
    && forall k :: k in sups.own ==> RecRep(m, recs[k], k, sups.own[k])
  }

  ghost predicate RegionRep(m: Memory, d: nat, size: nat) {
    && HEADER <= size
    && Mapped(m, d, size)
    && m[d] == TagOf(d)
    && m[d + OWNER_AT] == 0
  }

  ghost predicate OwnersKnown(pre: Pool) {
    forall c :: c in pre.owner ==> pre.owner[c] < |pre.bins| && c in pre.bins[pre.owner[c]].own
  }

  /** The chunks of all bins but one, and all direct regions. */
  ghost predicate OthersRep(m: Memory, pre: Pool, but: nat)
    requires OwnersKnown(pre)
  {
    && (forall c :: c in pre.owner && c != but ==> ChunkRep(m, pre.owner[c], c, pre.bins[pre.owner[c]].own[c]))
    && (forall d :: d in pre.direct ==> RegionRep(m, d, pre.direct[d]))
  }

  ghost predicate Rep(m: Memory, recs: map<nat, SuperRec>, pre: Pool) {
    && OwnersKnown(pre)
    && SuperRep(m, recs, pre.sup)
    && (forall c :: c in pre.owner ==> ChunkRep(m, pre.owner[c], c, pre.bins[pre.owner[c]].own[c]))
    && (forall d :: d in pre.direct ==> RegionRep(m, d, pre.direct[d]))
  }

  /** What keeps the parts of memory apart. */
  ghost predicate Separate(pre: Pool) {
    LevelInv(pre.sup, SLOTS, 0) && Conserved(pre.sup, pre.owner) && Regions(pre)
  }

  // --- Frames

  lemma ChunkFrame(m: Memory, w: Memory, b: nat, c: nat, o: Owner)
    requires b < BINS && ChunkRep(m, b, c, o) && AgreeOn(m, w, c, CHUNK)
    requires forall i :: i in o.free ==> i < Blocks(b)
    ensures ChunkRep(w, b, c, o)
  {
    hide Blocks, BlockSize, BinObject, TagOf, Threaded;
    forall i | i in o.free
      ensures At(c + HEADER, BlockSize(b), i) in w
      ensures At(c + HEADER, BlockSize(b), i) in m
      ensures w[At(c + HEADER, BlockSize(b), i)] == m[At(c + HEADER, BlockSize(b), i)]
    {
      BlockInChunk(b, c, i);
    }
    ThreadFrame(m, w, m[c + FIRST_AT], c + HEADER, BlockSize(b), o.free);
  }

  lemma BlockInChunk(b: nat, c: nat, i: nat)
    requires b < BINS && i < Blocks(b)
    ensures At(c + HEADER, BlockSize(b), i) == BlockAt(b, c, i)
    ensures c + HEADER <= BlockAt(b, c, i) && BlockAt(b, c, i) + BlockSize(b) <= c + CHUNK
  {
    hide Blocks, BlockSize;
    BlocksFit(b);
    BlockInside(i, Blocks(b), BlockSize(b));
  }

  lemma RecFrame(m: Memory, w: Memory, r: SuperRec, k: nat, o: Owner)
    requires RecRep(m, r, k, o) && Mapped(w, k, SUPERCHUNK)
    requires forall i :: i in o.free ==> SlotAt(k, i) in m && SlotAt(k, i) in w && w[SlotAt(k, i)] == m[SlotAt(k, i)]
    ensures RecRep(w, r, k, o)
  {
    hide Threaded;
    assert forall i: nat :: At(k, CHUNK, i) == SlotAt(k, i);
    ThreadFrame(m, w, r.first, k, CHUNK, o.free);
  }

  /** Writing inside one chunk some bin owns leaves all other chunks, all superchunk records and
      all direct regions as they were. */
  lemma ChunkWriteFrame(m: Memory, w: Memory, recs: map<nat, SuperRec>, pre: Pool, c: nat)
    requires OwnersKnown(pre) && Separate(pre) && c in pre.owner
    requires forall x :: x in pre.owner ==>
        pre.owner[x] < BINS && OwnerOk(pre.bins[pre.owner[x]].own[x], Blocks(pre.owner[x]))
    requires SuperRep(m, recs, pre.sup) && OthersRep(m, pre, c)
    requires OnlyIn(m, w, c, CHUNK)
    ensures SuperRep(w, recs, pre.sup) && OthersRep(w, pre, c)
  {
    hide Blocks, BlockSize, LevelInv, Threaded, ChunkRep, RegionRep, RecRep;
    forall x | x in pre.owner && x != c ensures ChunkRep(w, pre.owner[x], x, pre.bins[pre.owner[x]].own[x]) {
      SlotsApart(pre, c, x);
      RepMapped(m, pre.owner[x], x, pre.bins[pre.owner[x]].own[x]);
      ChunkFrame(m, w, pre.owner[x], x, pre.bins[pre.owner[x]].own[x]);
    }
    forall d | d in pre.direct ensures RegionRep(w, d, pre.direct[d]) {
      SlotInRegion(pre, c, d);
      RegionFrame(m, w, d, pre.direct[d], c);
    }
    forall k | k in pre.sup.own ensures RecRep(w, recs[k], k, pre.sup.own[k]) {
      FreeSlotsApart(pre, c, k);
      RecMapped(m, recs[k], k, pre.sup.own[k]);
      RecFrame(m, w, recs[k], k, pre.sup.own[k]);
    }
  }

  lemma RepMapped(m: Memory, b: nat, c: nat, o: Owner)
    requires ChunkRep(m, b, c, o)
    ensures Mapped(m, c, CHUNK)
  {
  }

  lemma RecMapped(m: Memory, r: SuperRec, k: nat, o: Owner)
    requires RecRep(m, r, k, o)
    ensures Mapped(m, k, SUPERCHUNK)
  {
  }

  lemma RegionFrame(m: Memory, w: Memory, d: nat, size: nat, c: nat)
    requires RegionRep(m, d, size) && OnlyIn(m, w, c, CHUNK) && Apart(c, CHUNK, d, size)
    ensures RegionRep(w, d, size)
  {
    hide TagOf;
  }

  lemma SlotsApart(pre: Pool, c: nat, x: nat)
    requires Separate(pre) && c in pre.owner && x in pre.owner && c != x
    ensures Apart(c, CHUNK, x, CHUNK)
  {
    hide Separate;
    ChunkIsAligned(pre, c);
    ChunkIsAligned(pre, x);
    AlignedApart(c, x);
  }

  lemma ChunkIsAligned(pre: Pool, c: nat)
    requires Separate(pre) && c in pre.owner
    ensures c % CHUNK == 0
  {
    hide LevelInv;
    var k, i: nat :| IsSlot(pre.sup, k, i, c);
    SlotOfAligned(k, i);
  }

  lemma SlotOfAligned(k: nat, i: nat)
    requires k % CHUNK == 0
    ensures SlotAt(k, i) % CHUNK == 0
  {
    assert k == CHUNK * (k / CHUNK);
    assert k + i * CHUNK == CHUNK * (k / CHUNK + i);
  }

  lemma SlotInRegion(pre: Pool, c: nat, d: nat)
    requires Separate(pre) && c in pre.owner && d in pre.direct
    ensures Apart(c, CHUNK, d, pre.direct[d])
  {
    hide LevelInv;
    var k, i: nat :| IsSlot(pre.sup, k, i, c);
    assert Apart(d, pre.direct[d], k, SUPERCHUNK);
  }

  lemma FreeSlotsApart(pre: Pool, c: nat, k: nat)
    requires Separate(pre) && c in pre.owner && k in pre.sup.own
    ensures forall i: nat :: i in pre.sup.own[k].free ==>
      i < SLOTS && k <= SlotAt(k, i) && SlotAt(k, i) + CHUNK <= k + SUPERCHUNK && Apart(c, CHUNK, SlotAt(k, i), CHUNK)
  {
    hide Shape, Placed;
    var x, j: nat :| IsSlot(pre.sup, x, j, c);
    forall i: nat | i in pre.sup.own[k].free
      ensures i < SLOTS && Apart(c, CHUNK, SlotAt(k, i), CHUNK)
    {
      assert OwnerOk(pre.sup.own[k], SLOTS);
      assert SlotAt(k, i) in pre.owner <==> Live(pre.sup, k, i, SLOTS);
      AlignedApart(c, SlotAt(k, i));
    }
  }

  lemma NullLink(start: nat, stride: nat, free: seq<nat>, j: nat)
    requires start > 0
    ensures Link(start, stride, free, j) == 0 <==> j >= |free|
  {
  }

  lemma AtNext(start: nat, stride: nat, i: nat)
    ensures At(start, stride, i + 1) == At(start, stride, i) + stride
  {
  }

  // --- Steps on one chunk or record

  /** Taking the head of a chunk's free list. */
  lemma PopChunk(m: Memory, b: nat, c: nat, o: Owner)
    requires b < BINS && ChunkRep(m, b, c, o) && o.free != [] && OwnerOk(o, Blocks(b)) && c > 0
    ensures m[c + FIRST_AT] == BlockAt(b, c, o.free[0]) && m[c + FIRST_AT] in m
    ensures m[m[c + FIRST_AT]] == 0 <==> |o.free| == 1
    ensures m[c + COUNT_AT] == |o.free|
    ensures ChunkRep(m[c + COUNT_AT := |o.free| - 1][c + FIRST_AT := m[m[c + FIRST_AT]]], b, c, o.(free := o.free[1..]))
  {
    hide Blocks, BlockSize, TagOf, BinObject, Threaded, At, Link;
    var first := m[c + FIRST_AT];
    ThreadHead(m, first, c + HEADER, BlockSize(b), o.free);
    ThreadPop(m, first, c + HEADER, BlockSize(b), o.free);
    NullLink(c + HEADER, BlockSize(b), o.free, 1);
    assert o.free[0] in o.free;
    BlockInChunk(b, c, o.free[0]);
    var w := m[c + COUNT_AT := |o.free| - 1][c + FIRST_AT := m[first]];
    forall i | i in o.free[1..]
      ensures At(c + HEADER, BlockSize(b), i) in m && At(c + HEADER, BlockSize(b), i) in w
      ensures w[At(c + HEADER, BlockSize(b), i)] == m[At(c + HEADER, BlockSize(b), i)]
    {
      assert i in o.free;
      BlockInChunk(b, c, i);
    }
    ThreadFrame(m, w, m[first], c + HEADER, BlockSize(b), o.free[1..]);
  }

  lemma ThreadHead(m: Memory, first: nat, start: nat, stride: nat, free: seq<nat>)
    requires Threaded(m, first, start, stride, free)
    ensures first == Link(start, stride, free, 0)
    ensures free != [] ==> first == At(start, stride, free[0]) && first in m && m[first] == Link(start, stride, free, 1)
  {
  }

  /** Giving block i back to the head of a chunk's free list. */
  lemma PushChunk(m: Memory, b: nat, c: nat, o: Owner, i: nat)
    requires b < BINS && ChunkRep(m, b, c, o) && OwnerOk(o, Blocks(b)) && i < Blocks(b) && i !in o.free
    ensures var p := BlockAt(b, c, i);
      ChunkRep(m[p := m[c + FIRST_AT]][c + FIRST_AT := p][c + COUNT_AT := m[c + COUNT_AT] + 1], b, c,
          o.(free := [i] + o.free))
  {
    hide Blocks, BlockSize, TagOf, BinObject, Threaded, At, Link;
    var p := BlockAt(b, c, i);
    BlockInChunk(b, c, i);
    var first := m[c + FIRST_AT];
    var v := m[p := first];
    ThreadPush(m, first, c + HEADER, BlockSize(b), o.free, i);
    var w := v[c + FIRST_AT := p][c + COUNT_AT := m[c + COUNT_AT] + 1];
    var more := [i] + o.free;
    forall j | j in more
      ensures At(c + HEADER, BlockSize(b), j) in v && At(c + HEADER, BlockSize(b), j) in w
      ensures w[At(c + HEADER, BlockSize(b), j)] == v[At(c + HEADER, BlockSize(b), j)]
    {
      BlockInChunk(b, c, j);
    }
    ThreadFrame(v, w, p, c + HEADER, BlockSize(b), more);
  }

  lemma SetLastChunk(m: Memory, b: nat, c: nat, o: Owner, last: nat)
    requires b < BINS && ChunkRep(m, b, c, o) && OwnerOk(o, Blocks(b))
    ensures ChunkRep(m[c + LAST_AT := last], b, c, o.(last := last))
  {
    hide Blocks, BlockSize, TagOf, BinObject, Threaded, At, Link;
    var w := m[c + LAST_AT := last];
    forall j | j in o.free
      ensures At(c + HEADER, BlockSize(b), j) in m && At(c + HEADER, BlockSize(b), j) in w
      ensures w[At(c + HEADER, BlockSize(b), j)] == m[At(c + HEADER, BlockSize(b), j)]
    {
      BlockInChunk(b, c, j);
    }
    ThreadFrame(m, w, m[c + FIRST_AT], c + HEADER, BlockSize(b), o.free);
  }

  /** Taking the head of a superchunk's free list; only the record changes. */
  lemma PopRec(m: Memory, r: SuperRec, k: nat, o: Owner)
    requires RecRep(m, r, k, o) && o.free != [] && k > 0
    ensures r.first == SlotAt(k, o.free[0]) && r.first in m
    ensures m[r.first] == 0 <==> |o.free| == 1
    ensures RecRep(m, SuperRec(r.last, r.freeCount - 1, m[r.first]), k, o.(free := o.free[1..]))
  {
    hide Threaded, Link;
    ThreadHead(m, r.first, k, CHUNK, o.free);
    ThreadPop(m, r.first, k, CHUNK, o.free);
    NullLink(k, CHUNK, o.free, 1);
  }

  lemma PushRec(m: Memory, r: SuperRec, k: nat, o: Owner, i: nat, tick: nat)
    requires RecRep(m, r, k, o) && i < SLOTS && i !in o.free
    ensures RecRep(m[SlotAt(k, i) := r.first], SuperRec(tick, r.freeCount + 1, SlotAt(k, i)), k,
        Owner([i] + o.free, tick))
  {
    hide Threaded;
    ThreadPush(m, r.first, k, CHUNK, o.free, i);
  }

  // --- Live blocks and memory

  /** The contents of every live block but one are the same in both memories. */
  ghost predicate LiveKept(m: Memory, w: Memory, pre: Pool, but: nat) {
    forall q: nat :: IsLive(pre, q) && q != but ==> AgreeOn(m, w, q, GetSize(pre, q))
  }

  lemma LiveMapped(m: Memory, recs: map<nat, SuperRec>, pre: Pool, q: nat)
    requires PoolInv(pre) && Rep(m, recs, pre) && IsLive(pre, q)
    ensures Mapped(m, q, GetSize(pre, q))
  {
    hide PoolInv, IsLive, GetSize, Threaded, TagOf, BinObject, HeaderOf;
    LiveExtent(pre, q);
    if HeaderOf(q) in pre.owner {
      RepMapped(m, pre.owner[HeaderOf(q)], HeaderOf(q), pre.bins[pre.owner[HeaderOf(q)]].own[HeaderOf(q)]);
    }
  }

  lemma GrowthKept(m: Memory, w: Memory, recs: map<nat, SuperRec>, pre: Pool)
    requires PoolInv(pre) && Rep(m, recs, pre)
    requires forall a :: a in m ==> a in w && w[a] == m[a]
    ensures LiveKept(m, w, pre, 0)
  {
    hide PoolInv, IsLive, GetSize, Rep;
    forall q: nat | IsLive(pre, q) ensures AgreeOn(m, w, q, GetSize(pre, q)) {
      LiveMapped(m, recs, pre, q);
    }
  }

  /** A write apart from the live blocks keeps their contents. */
  lemma OutsideKept(m: Memory, v: Memory, w: Memory, pre: Pool, lo: nat, n: nat, but: nat)
    requires LiveKept(m, v, pre, but) && OnlyIn(v, w, lo, n)
    requires forall q: nat :: IsLive(pre, q) && q != but ==> Apart(q, GetSize(pre, q), lo, n)
    ensures LiveKept(m, w, pre, but)
  {
    hide IsLive, GetSize;
    forall q: nat | IsLive(pre, q) && q != but ensures AgreeOn(m, w, q, GetSize(pre, q)) {
      assert AgreeOn(m, v, q, GetSize(pre, q));
    }
  }

  /** A chunk's header lies apart from every live block. */
  lemma HeaderApart(pre: Pool, c: nat, q: nat)
    requires PoolInv(pre) && (c in pre.owner || c in pre.direct) && IsLive(pre, q)
    ensures Apart(q, GetSize(pre, q), c, HEADER)
  {
    hide PoolInv, IsLive, GetSize, HeaderOf;
    LiveExtent(pre, q);
    ExtentLarge(pre, c);
    if HeaderOf(q) != c { ExtentsApart(pre, HeaderOf(q), c); }
  }

  lemma ExtentLarge(pre: Pool, c: nat)
    requires PoolInv(pre) && (c in pre.owner || c in pre.direct)
    ensures Extent(pre, c) >= HEADER
  {
    hide LevelInv, Conserved, Supers, Blocks, BlockSize;
  }

  // --- Giving memory back

  /** All chunks the bins own and all direct regions have the same contents in both memories. */
  ghost predicate HeldKept(m: Memory, w: Memory, pre: Pool) {
    && (forall c :: c in pre.owner ==> AgreeOn(m, w, c, CHUNK))
    && (forall d :: d in pre.direct ==> AgreeOn(m, w, d, pre.direct[d]))
  }

  lemma HeldFrame(m: Memory, w: Memory, pre: Pool)
    requires OwnersKnown(pre) && HeldKept(m, w, pre)
    requires forall x :: x in pre.owner ==>
        pre.owner[x] < BINS && OwnerOk(pre.bins[pre.owner[x]].own[x], Blocks(pre.owner[x]))
    requires forall c :: c in pre.owner ==> ChunkRep(m, pre.owner[c], c, pre.bins[pre.owner[c]].own[c])
    requires forall d :: d in pre.direct ==> RegionRep(m, d, pre.direct[d])
    ensures forall c :: c in pre.owner ==> ChunkRep(w, pre.owner[c], c, pre.bins[pre.owner[c]].own[c])
    ensures forall d :: d in pre.direct ==> RegionRep(w, d, pre.direct[d])
  {
    hide ChunkRep, Blocks, TagOf, AgreeOn;
    forall c | c in pre.owner ensures ChunkRep(w, pre.owner[c], c, pre.bins[pre.owner[c]].own[c]) {
      ChunkFrame(m, w, pre.owner[c], c, pre.bins[pre.owner[c]].own[c]);
    }
    forall d | d in pre.direct ensures RegionRep(w, d, pre.direct[d]) {
      RegionAgree(m, w, d, pre.direct[d]);
    }
  }

  lemma RegionAgree(m: Memory, w: Memory, d: nat, size: nat)
    requires RegionRep(m, d, size) && AgreeOn(m, w, d, size)
    ensures RegionRep(w, d, size)
  {
    hide TagOf;
  }

  lemma OwnersOk(pre: Pool)
    requires PoolInv(pre)
    ensures Separate(pre) && OwnersKnown(pre)
    ensures forall x :: x in pre.owner ==>
        pre.owner[x] < BINS && OwnerOk(pre.bins[pre.owner[x]].own[x], Blocks(pre.owner[x]))
  {
    hide Blocks, Conserved, Supers, Shape;
    forall x | x in pre.owner ensures OwnerOk(pre.bins[pre.owner[x]].own[x], Blocks(pre.owner[x])) {
      assert LevelInv(pre.bins[pre.owner[x]], Blocks(pre.owner[x]), Blocks(pre.owner[x]) / 4);
    }
  }

  lemma HeldMapped(m: Memory, recs: map<nat, SuperRec>, pre: Pool)
    requires Rep(m, recs, pre)
    ensures HeldKept(m, m, pre)
  {
    hide Threaded, TagOf, BinObject;
  }

  /** The first word of a slot that no bin owns. */
  lemma FreeSlotWrite(m: Memory, pre: Pool, k: nat, i: nat, v: nat)
    requires PoolInv(pre) && HeldKept(m, m, pre)
    requires k in pre.sup.own && i < SLOTS && SlotAt(k, i) !in pre.owner
    ensures HeldKept(m, m[SlotAt(k, i) := v], pre)
  {
    hide PoolInv, AgreeOn, SlotAt, Apart;
    var c := SlotAt(k, i);
    SlotIsAligned(pre, k, i);
    forall x | x in pre.owner ensures AgreeOn(m, m[c := v], x, CHUNK) {
      OwnedIsAligned(pre, x);
      AlignedApart(c, x);
      ApartOutside(c, CHUNK, x, CHUNK);
      AgreeBut(m, x, CHUNK, c, v);
    }
    forall d | d in pre.direct ensures AgreeOn(m, m[c := v], d, pre.direct[d]) {
      SlotApartFromRegion(pre, k, i, d);
      ApartOutside(c, CHUNK, d, pre.direct[d]);
      AgreeBut(m, d, pre.direct[d], c, v);
    }
  }

  lemma ApartOutside(a: nat, n: nat, lo: nat, size: nat)
    requires Apart(a, n, lo, size) && n > 0
    ensures !(lo <= a < lo + size)
  {
  }

  lemma SlotIsAligned(pre: Pool, k: nat, i: nat)
    requires PoolInv(pre) && k in pre.sup.own
    ensures SlotAt(k, i) % CHUNK == 0
  {
    hide LevelInv, Conserved, Blocks, BlockSize, BinsOk;
    assert k % CHUNK == 0;
    SlotOfAligned(k, i);
  }

  lemma SlotApartFromRegion(pre: Pool, k: nat, i: nat, d: nat)
    requires PoolInv(pre) && k in pre.sup.own && i < SLOTS && d in pre.direct
    ensures Apart(SlotAt(k, i), CHUNK, d, pre.direct[d])
  {
    hide LevelInv, Conserved, Blocks, BlockSize, BinsOk;
    assert Apart(d, pre.direct[d], k, SUPERCHUNK);
  }

  lemma AgreeBut(m: Memory, lo: nat, n: nat, a: nat, v: nat)
    requires AgreeOn(m, m, lo, n) && !(lo <= a < lo + n)
    ensures AgreeOn(m, m[a := v], lo, n)
  {
  }

  /** Returning a superchunk no slot of which is owned. */
  lemma ReleaseFrame(m: Memory, recs: map<nat, SuperRec>, pre: Pool, k: nat)
    requires PoolInv(pre) && Rep(m, recs, pre) && k in pre.sup.own
    requires forall i: nat :: !Live(pre.sup, k, i, SLOTS)
    ensures HeldKept(m, Release(m, k, SUPERCHUNK), pre)
  {
    hide BinsOk, LevelInv, ChunkRep, RegionRep, SuperRep, AgreeOn, Blocks, Release, Live;
    HeldMapped(m, recs, pre);
    forall x | x in pre.owner ensures AgreeOn(m, Release(m, k, SUPERCHUNK), x, CHUNK) {
      var l, j: nat :| IsSlot(pre.sup, l, j, x);
      assert SlotAt(l, j) in pre.owner <==> Live(pre.sup, l, j, SLOTS);
      assert Apart(k, SUPERCHUNK, l, SUPERCHUNK);
      AgreeRelease(m, x, CHUNK, k, SUPERCHUNK);
    }
    forall d | d in pre.direct ensures AgreeOn(m, Release(m, k, SUPERCHUNK), d, pre.direct[d]) {
      assert Apart(d, pre.direct[d], k, SUPERCHUNK);
      AgreeRelease(m, d, pre.direct[d], k, SUPERCHUNK);
    }
  }

  lemma AgreeRelease(m: Memory, lo: nat, n: nat, k: nat, size: nat)
    requires AgreeOn(m, m, lo, n) && Apart(lo, n, k, size)
    ensures AgreeOn(m, Release(m, k, size), lo, n)
  {
  }

  lemma RecRelease(m: Memory, r: SuperRec, x: nat, o: Owner, k: nat, size: nat)
    requires RecRep(m, r, x, o) && Apart(x, SUPERCHUNK, k, size) && OwnerOk(o, SLOTS)
    ensures RecRep(Release(m, k, size), r, x, o)
  {
    hide Threaded;
    RecFrame(m, Release(m, k, size), r, x, o);
  }
}
