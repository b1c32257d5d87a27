/** The pool allocator as a transition system: twelve size-class bins over 64 KiB chunks, the
chunks themselves blocks of 2 MiB superchunks, and direct allocations for larger sizes.

Chunks and superchunks are named by the address of their memory. The operating system enters
through Env: the base address the next VirtualAlloc returns (None when the system is out of
memory or its private heap is), the values the successive GetTickCount calls of one operation
return, and the two registry settings.
*/
module PoolModel {
  import opened Bits
  import opened Options
  import opened SlabLevel

  const CHUNK: nat := 0x10000
  const HEADER: nat := 48
  const SUPERCHUNK: nat := 0x200000
  const SLOTS: nat := 32
  const BINS: nat := 12
  const PAGE: nat := 4096

  // --- Size classes

  function BlockSize(b: nat): (r: nat)
    ensures r >= 8
  {
    if b == 0 then 8 else 2 * BlockSize(b - 1)
  }

  function Blocks(b: nat): nat {
    DivLower(CHUNK - HEADER, BlockSize(b), 0);
    (CHUNK - HEADER) / BlockSize(b)
  }

  lemma {:induction false} BlockSizeMonotone(a: nat, b: nat)
    requires a < b
    ensures 2 * BlockSize(a) <= BlockSize(b)
  {
    if a + 1 < b {
      BlockSizeMonotone(a, b - 1);
    }
  }

  lemma BlockSizeBound(b: nat)
    requires b < BINS
    ensures BlockSize(b) <= 16384
  {
    assert BlockSize(11) == 16384 by {
      assert BlockSize(3) == 64;
      assert BlockSize(6) == 512;
      assert BlockSize(9) == 4096;
    }
    if b < 11 {
      BlockSizeMonotone(b, 11);
    }
  }

  lemma MulLe(a: nat, b: nat, d: nat)
    requires a <= b
    ensures a * d <= b * d
  {
  }

  lemma DivLower(n: nat, d: nat, q: nat)
    requires d > 0 && q * d <= n
    ensures q <= n / d
  {
    QuotientBound(n / d, n % d, d, q);
  }

  lemma QuotientBound(k: nat, r: nat, d: nat, q: nat)
    requires r < d && q * d <= k * d + r
    ensures q <= k
  {
    if q > k {
      MulLe(k + 1, q, d);
    }
  }

  lemma DivMul(n: nat, d: nat)
    requires d > 0
    ensures n / d * d <= n
  {
  }

  /** Every bin has at least three blocks a chunk, and the blocks end where the chunk ends or
      earlier. */
  lemma BlocksFit(b: nat)
    requires b < BINS
    ensures 3 <= Blocks(b) && HEADER + Blocks(b) * BlockSize(b) <= CHUNK
  {
    hide BlockSize;
    BlockSizeBound(b);
    DivLower(CHUNK - HEADER, BlockSize(b), 3);
    DivMul(CHUNK - HEADER, BlockSize(b));
  }

  /** There are as many as fit. */
  lemma NoMoreBlocksFit(b: nat)
    ensures HEADER + (Blocks(b) + 1) * BlockSize(b) > CHUNK
  {
    hide BlockSize;
    DivNext(CHUNK - HEADER, BlockSize(b));
  }

  lemma DivNext(n: nat, d: nat)
    requires d > 0
    ensures (n / d + 1) * d > n
  {
    assert (n / d + 1) * d == n / d * d + d;
  }

  /** The number of the block at offset x past the header of a chunk of bin b. */
  function BlockIndex(b: nat, x: nat): nat {
    DivLower(x, BlockSize(b), 0);
    x / BlockSize(b)
  }

  /** The bin for a request: BINS means that no bin serves it. */
  function IndexFromSize(nSize: nat): nat {
    if nSize >= 32768 then BINS
    else
      var n := if nSize < 8 then 8 else nSize;
      var ndx := BitScanReverse(n);
      PowMono(3, ndx, n);
      (if And(n, n - 1) != 0 then ndx + 1 else ndx) - 3
  }

  lemma {:induction false} BlockSizePow(b: nat)
    ensures BlockSize(b) == Pow2(b + 3)
  {
    if b == 0 {
      assert Pow2(3) == 8;
    } else {
      BlockSizePow(b - 1);
    }
  }

  /** IndexFromSize gives the smallest of the twelve classes that fits, and no class exactly
      when the request is larger than the largest one. */
  lemma IndexFromSizeIsBestFit(n: nat)
    ensures var b := IndexFromSize(n);
      && (b < BINS <==> n <= 16384)
      && (b < BINS ==> n <= BlockSize(b))
      && (b < BINS ==> forall a: nat :: a < b ==> BlockSize(a) < n)
      && (b >= BINS ==> b == BINS)
  {
    hide And, BitScanReverse, Pow2, BlockSize;
    PowValues();
    if n < 32768 {
      var m := if n < 8 then 8 else n;
      var ndx := BitScanReverse(m);
      PowMono(3, ndx, m);
      AndTest(m);
      var b := IndexFromSize(n);
      ClassBounds(n, m, ndx, b);
    }
  }

  lemma PowValues()
    ensures Pow2(3) == 8 && Pow2(14) == 16384 && Pow2(15) == 32768
  {
    assert Pow2(4) == 16;
    assert Pow2(8) == 256;
    assert Pow2(11) == 2048;
  }

  lemma ClassBounds(n: nat, m: nat, ndx: nat, b: nat)
    requires m == (if n < 8 then 8 else n) && n < 32768
    requires Pow2(ndx) <= m < 2 * Pow2(ndx) && ndx >= 3
    requires b == (if m != Pow2(ndx) then ndx + 1 else ndx) - 3
    ensures b < BINS <==> n <= 16384
    ensures b <= BINS
    ensures n <= BlockSize(b)
    ensures forall a: nat :: a < b ==> BlockSize(a) < n
  {
    hide BlockSize;
    PowValues();
    BlockSizePow(b);
    forall a: nat | a < b ensures BlockSize(a) < n {
      BlockSizePow(a);
      PowSplit(a + 3, b + 2);
      PowSplit(3, b + 2);
    }
    if b >= BINS { PowSplit(14, b + 2); } else { PowSplit(b + 3, 14); }
    if b > BINS { PowSplit(15, ndx); }
  }

  // --- The state

  /** bins: the twelve bins; counter: their free-call counters; sup: the superchunk manager;
      owner: the lpBinOwner field of every chunk the bins hold; direct: the size of every region
      that serves one large allocation. */
  datatype Pool = Pool(bins: seq<Level>, counter: seq<nat>, sup: Level, owner: map<nat, nat>, direct: map<nat, nat>)

  datatype Env = Env(base: Option<nat>, ticks: seq<nat>, maxAge: nat, checkFreq: nat)

  function Tick(e: Env, j: nat): nat {
    if j < |e.ticks| then e.ticks[j] else 0
  }

  const INITIAL := Pool(seq(BINS, _ => EMPTY), seq(BINS, _ => 0), EMPTY, map[], map[])

  /** The address of slot i of superchunk k. */
  function SlotAt(k: nat, i: nat): nat {
    k + i * CHUNK
  }

  /** The address of block i of a chunk of bin b. */
  function BlockAt(b: nat, c: nat, i: nat): nat {
    c + HEADER + i * BlockSize(b)
  }

  /** The header address that Free and GetSize compute from a pointer. */
  function HeaderOf(p: nat): nat {
    p - p % CHUNK
  }

  // --- The superchunk manager

  function SuperAlloc(sups: Level, base: Option<nat>): (Level, Option<nat>) {
    var rdy := if sups.inUse != [] then sups
             else if sups.freeL != [] then Move(sups, sups.freeL[0], ToInUse)
             else match base case None => sups case Some(k) => AddOwner(sups, k, SLOTS);
    if rdy.inUse == [] || rdy.inUse[0] !in rdy.own || rdy.own[rdy.inUse[0]].free == [] then (sups, None)
    else
      var t := Take(rdy);
      (t.level, Some(SlotAt(t.owner, t.block)))
  }

  /** The linear search for the superchunk that contains an address. */
  function Find(s: seq<nat>, p: nat): Option<nat> {
    if s == [] then None
    else if s[0] <= p < s[0] + SUPERCHUNK then Some(s[0])
    else Find(s[1..], p)
  }

  function SuperFree(sups: Level, p: nat, tick: nat, maxAge: nat): Level {
    var u := Find(sups.inUse, p);
    var k := if u.Some? then u else Find(sups.full, p);
    if k.None? || k.value !in sups.own || p < k.value then sups
    else
      var upd := Give(sups, k.value, (p - k.value) / CHUNK, SLOTS, u.None?, tick);
      Trim(upd, upd.freeL, |upd.freeL|, tick, maxAge)
  }

  // --- The bins

  /** SmallHeapAlloc of bin b; the second component is the pointer, None for NULL. */
  function SmallAlloc(pre: Pool, b: nat, base: Option<nat>): (Pool, Option<nat>)
    requires b < |pre.bins|
  {
    var lev := pre.bins[b];
    if lev.inUse != [] then TakeBlock(pre, b, lev)
    else if lev.freeL != [] then TakeBlock(pre, b, Move(lev, lev.freeL[0], ToInUse))
    else
      var (sups, slot) := SuperAlloc(pre.sup, base);
      match slot
      case None => (pre, None)
      case Some(c) => TakeBlock(pre.(sup := sups, owner := pre.owner[c := b]), b, AddOwner(lev, c, Blocks(b)))
  }

  function TakeBlock(pre: Pool, b: nat, lev: Level): (Pool, Option<nat>)
    requires b < |pre.bins|
  {
    if lev.inUse == [] || lev.inUse[0] !in lev.own || lev.own[lev.inUse[0]].free == [] then (pre, None)
    else
      var t := Take(lev);
      (pre.(bins := pre.bins[b := t.level]), Some(BlockAt(b, t.owner, t.block)))
  }

  /** One iteration of the bin's Trim loop: the chunk c goes back to the superchunk manager. */
  function ReleaseChunk(pre: Pool, b: nat, c: nat, tick: nat, maxAge: nat): Pool
    requires b < |pre.bins|
  {
    pre.(bins := pre.bins[b := DropOwner(pre.bins[b], c)],
       owner := pre.owner - {c},
       sup := SuperFree(pre.sup, c, tick, maxAge))
  }

  /** The loop of the bin's Trim over the chunks s[..n], from the tail; `j` numbers the
      GetTickCount calls. */
  function TrimBin(pre: Pool, b: nat, s: seq<nat>, n: nat, time: nat, e: Env, j: nat): Pool
    requires b < |pre.bins| && n <= |s|
    decreases n
  {
    if n == 0 then pre
    else
      var c := s[n - 1];
      if c in pre.bins[b].own && Aged(pre.bins[b].own[c].last, time, e.maxAge)
      then TrimBin(ReleaseChunk(pre, b, c, Tick(e, j), e.maxAge), b, s, n - 1, time, e, j + 1)
      else TrimBin(pre, b, s, n - 1, time, e, j)
  }

  /** SmallHeapFree of bin b for block i of chunk c. */
  function SmallFree(pre: Pool, b: nat, c: nat, i: nat, e: Env): Pool
    requires b < |pre.bins| && |pre.counter| == |pre.bins| && c in pre.bins[b].own
  {
    var lev := pre.bins[b];
    var upd := Give(lev, c, i, Blocks(b), |lev.own[c].free| + 1 > Blocks(b) / 4, Tick(e, 0));
    if pre.counter[b] + 1 >= e.checkFreq
    then TrimBin(pre.(bins := pre.bins[b := upd], counter := pre.counter[b := 0]), b, upd.freeL, |upd.freeL|,
        Tick(e, 0), e, 1)
    else pre.(bins := pre.bins[b := upd], counter := pre.counter[b := pre.counter[b] + 1])
  }

  // --- The entry points

  /** The size of the region VirtualAlloc commits for a request of n bytes: the sum with the
      header size wraps around at the word size. */
  function RegionSize(n: nat): nat {
    ((n + HEADER) % SIZE_LIMIT + PAGE - 1) / PAGE * PAGE
  }

  function Malloc(pre: Pool, n: nat, e: Env): (Pool, Option<nat>)
    requires |pre.bins| == BINS
  {
    var b := IndexFromSize(n);
    if b < BINS then SmallAlloc(pre, b, e.base)
    else
      match e.base
      case None => (pre, None)
      case Some(d) =>
        if RegionSize(n) == 0 then (pre, None)
        else (pre.(direct := pre.direct[d := RegionSize(n)]), Some(d + HEADER))
  }

  /** Free through the header: a bin owner selects SmallHeapFree, none selects VirtualFree. */
  function Free(pre: Pool, p: nat, e: Env): Pool
    requires |pre.bins| == |pre.counter| == BINS
  {
    var c := HeaderOf(p);
    if p == 0 then pre
    else if c in pre.owner && pre.owner[c] < BINS && c in pre.bins[pre.owner[c]].own && p >= c + HEADER then
      SmallFree(pre, pre.owner[c], c, BlockIndex(pre.owner[c], p - c - HEADER), e)
    else pre.(direct := pre.direct - {c})
  }

  function GetSize(pre: Pool, p: nat): nat {
    var c := HeaderOf(p);
    if p == 0 then 0
    else if c in pre.owner then BlockSize(pre.owner[c])
    else if c in pre.direct && pre.direct[c] >= HEADER then pre.direct[c] - HEADER
    else 0
  }

  // --- Live blocks

  ghost predicate LiveSmall(pre: Pool, p: nat) {
    var c := HeaderOf(p);
    && c in pre.owner && pre.owner[c] < |pre.bins|
    && p >= c + HEADER
    && (p - c - HEADER) % BlockSize(pre.owner[c]) == 0
    && Live(pre.bins[pre.owner[c]], c, BlockIndex(pre.owner[c], p - c - HEADER), Blocks(pre.owner[c]))
  }

  ghost predicate LiveDirect(pre: Pool, p: nat) {
    HeaderOf(p) in pre.direct && p == HeaderOf(p) + HEADER
  }

  /** The allocator's own account of the pointers that are handed out. */
  ghost predicate IsLive(pre: Pool, p: nat) {
    LiveSmall(pre, p) || LiveDirect(pre, p)
  }

  // --- The invariant

  ghost predicate Apart(a: nat, n: nat, b: nat, m: nat) {
    a + n <= b || b + m <= a
  }

  ghost predicate IsSlot(sups: Level, k: nat, i: nat, c: nat) {
    k in sups.own && i < SLOTS && c == SlotAt(k, i)
  }

  /** Conservation between the two levels: a slot is on its superchunk's free list exactly when
      no bin owns it, and every chunk a bin owns is a slot. */
  ghost predicate Conserved(sups: Level, owner: map<nat, nat>) {
    && (forall k, i: nat :: k in sups.own && i < SLOTS ==> (SlotAt(k, i) in owner <==> Live(sups, k, i, SLOTS)))
    && (forall c :: c in owner ==> exists k, i: nat :: IsSlot(sups, k, i, c))
  }

  ghost predicate Supers(sups: Level) {
    && (forall k :: k in sups.own ==> k % CHUNK == 0 && k >= CHUNK)
    && (forall k, x :: k in sups.own && x in sups.own && k != x ==> Apart(k, SUPERCHUNK, x, SUPERCHUNK))
  }

  /** Regions come from the system 64 KiB aligned and disjoint. */
  ghost predicate Regions(pre: Pool) {
    && Supers(pre.sup)
    && (forall d :: d in pre.direct ==> d % CHUNK == 0 && d >= CHUNK && pre.direct[d] >= PAGE)
    && (forall d, k :: d in pre.direct && k in pre.sup.own ==> Apart(d, pre.direct[d], k, SUPERCHUNK))
    && (forall d, x :: d in pre.direct && x in pre.direct && d != x ==> Apart(d, pre.direct[d], x, pre.direct[x]))
  }

  ghost predicate BinsOk(pre: Pool) {
    && |pre.bins| == |pre.counter| == BINS
    && (forall b :: 0 <= b < BINS ==> LevelInv(pre.bins[b], Blocks(b), Blocks(b) / 4))
    && (forall c :: c in pre.owner ==> pre.owner[c] < BINS)
    && (forall b, c :: 0 <= b < BINS ==> (c in pre.bins[b].own <==> c in pre.owner && pre.owner[c] == b))
  }

  ghost predicate PoolInv(pre: Pool) {
    && BinsOk(pre)
    && LevelInv(pre.sup, SLOTS, 0)
    && Conserved(pre.sup, pre.owner)
    && Regions(pre)
  }

  ghost predicate FreshFor(pre: Pool, base: nat, size: nat) {
    && base % CHUNK == 0 && base >= CHUNK
    && (forall k :: k in pre.sup.own ==> Apart(base, size, k, SUPERCHUNK))
    && (forall d :: d in pre.direct ==> Apart(base, size, d, pre.direct[d]))
  }

  /** What the system promises of the region it returns for a request of n bytes. */
  ghost predicate EnvOk(pre: Pool, n: nat, e: Env) {
    e.base.Some? ==> FreshFor(pre, e.base.value, if IndexFromSize(n) < BINS then SUPERCHUNK else RegionSize(n))
  }
}
