/** Whole runs of the pool: a client calls Malloc, Realloc and Free in any order, giving back
each pointer at most once and only while it holds it.
*/
module PoolRuns {
  import opened Bits
  import opened Options
  import opened PoolModel
  import opened PoolSafety
  import opened Sets
  import opened SlabLevel

  // --- The size of a live block never changes

  /** A header that is in use before and after keeps its owner, or its region's size. */
  ghost predicate HeadersAgree(pre: Pool, post: Pool) {
    && (forall c :: c in pre.owner && c in post.owner ==> post.owner[c] == pre.owner[c])
    && (forall d :: d in pre.direct && d in post.direct ==> post.direct[d] == pre.direct[d])
    && (post.owner == pre.owner || post.direct == pre.direct)
  }

  lemma SizesStable(pre: Pool, post: Pool, q: nat)
    requires PoolInv(pre) && PoolInv(post) && HeadersAgree(pre, post)
    requires IsLive(pre, q) && IsLive(post, q)
    ensures GetSize(post, q) == GetSize(pre, q)
  {
    hide LevelInv, Conserved, Supers, Blocks, BlockSize, Live;
    var h := HeaderOf(q);
    if h in pre.direct { DirectNotOwned(pre, h); }
    if h in post.direct { DirectNotOwned(post, h); }
  }

  lemma SmallAllocHeaders(pre: Pool, b: nat, base: Option<nat>)
    requires PoolInv(pre) && b < BINS
    requires base.Some? ==> FreshFor(pre, base.value, SUPERCHUNK)
    ensures |pre.bins| == BINS && HeadersAgree(pre, SmallAlloc(pre, b, base).0)
  {
    hide LevelInv, Conserved, Supers, Blocks, BlockSize, Live, SuperAlloc, Take, AddOwner, Move, Shape, BlockAt;
    FreshSuperOf(pre, base);
    SuperAllocKeeps(pre.sup, base, pre.owner, b);
    var lev := pre.bins[b];
    if lev.inUse == [] && lev.freeL == [] {
      var (sups, slot) := SuperAlloc(pre.sup, base);
      if slot.Some? {
        assert SmallAlloc(pre, b, base) ==
          TakeBlock(pre.(sup := sups, owner := pre.owner[slot.value := b]), b, AddOwner(lev, slot.value, Blocks(b)));
        assert SmallAlloc(pre, b, base).0.owner == pre.owner[slot.value := b];
      }
    } else {
      assert SmallAlloc(pre, b, base).0.owner == pre.owner;
    }
  }

  lemma MallocHeaders(pre: Pool, n: nat, e: Env)
    requires PoolInv(pre) && EnvOk(pre, n, e)
    ensures HeadersAgree(pre, Malloc(pre, n, e).0)
  {
    hide LevelInv, Conserved, Supers, Blocks, BlockSize, Live, SmallAlloc, RegionSize, IndexFromSize;
    IndexFromSizeIsBestFit(n);
    if IndexFromSize(n) < BINS {
      SmallAllocHeaders(pre, IndexFromSize(n), e.base);
    } else if e.base.Some? && RegionSize(n) != 0 {
      RegionSizeIsPages(n);
      DirectAllocKeeps(pre, e.base.value, RegionSize(n));
    }
  }

  lemma {:induction false} TrimBinHeaders(pre: Pool, b: nat, s: seq<nat>, n: nat, time: nat, e: Env, j: nat)
    requires b < |pre.bins| && n <= |s|
    ensures var post := TrimBin(pre, b, s, n, time, e, j);
      && post.direct == pre.direct
      && forall c :: c in post.owner ==> c in pre.owner && post.owner[c] == pre.owner[c]
    decreases n
  {
    hide SuperFree, DropOwner;
    if n == 0 {
    } else {
      var c := s[n - 1];
      if c in pre.bins[b].own && Aged(pre.bins[b].own[c].last, time, e.maxAge) {
        TrimBinHeaders(ReleaseChunk(pre, b, c, Tick(e, j), e.maxAge), b, s, n - 1, time, e, j + 1);
      } else {
        TrimBinHeaders(pre, b, s, n - 1, time, e, j);
      }
    }
  }

  lemma FreeHeaders(pre: Pool, p: nat, e: Env)
    requires |pre.bins| == |pre.counter| == BINS
    ensures HeadersAgree(pre, Free(pre, p, e))
  {
    hide TrimBin, Give, Blocks, BlockSize;
    var c: nat := HeaderOf(p);
    if p != 0 && c in pre.owner && pre.owner[c] < BINS && c in pre.bins[pre.owner[c]].own && p >= c + HEADER {
      var b := pre.owner[c];
      var upd := Give(pre.bins[b], c, BlockIndex(b, p - c - HEADER), Blocks(b),
                    |pre.bins[b].own[c].free| + 1 > Blocks(b) / 4, Tick(e, 0));
      TrimBinHeaders(pre.(bins := pre.bins[b := upd], counter := pre.counter[b := 0]), b, upd.freeL, |upd.freeL|,
          Tick(e, 0), e, 1);
    }
  }

  // --- GetSize against the request

  /** The block that serves a request of n bytes is at least that large exactly when adding the
      header size to n does not wrap around. */
  lemma MallocSize(pre: Pool, n: nat, e: Env)
    requires PoolInv(pre) && EnvOk(pre, n, e) && Malloc(pre, n, e).1.Some? && n < SIZE_LIMIT
    ensures var (post, r) := Malloc(pre, n, e);
      GetSize(post, r.value) >= n <==> n + HEADER < SIZE_LIMIT
  {
    hide LevelInv, Conserved, Supers, Blocks, Malloc, PoolInv;
    IndexFromSizeIsBestFit(n);
    MallocKeeps(pre, n, e);
    RegionCovers(n);
  }

  lemma RegionCovers(n: nat)
    requires n < SIZE_LIMIT
    ensures n + HEADER < SIZE_LIMIT ==> RegionSize(n) >= n + HEADER
    ensures n + HEADER >= SIZE_LIMIT ==> RegionSize(n) <= PAGE
  {
    var m := (n + HEADER) % SIZE_LIMIT;
    assert (m + PAGE - 1) / PAGE * PAGE >= m;
    if n + HEADER >= SIZE_LIMIT {
      assert m == n + HEADER - SIZE_LIMIT;
    }
  }

  /** The failing case happens: a request for all but 47 bytes of the address space gets one
      page. */
  lemma HugeRequestGetsOnePage(pre: Pool, e: Env)
    requires PoolInv(pre) && e.base.Some? && FreshFor(pre, e.base.value, PAGE)
    ensures var n := SIZE_LIMIT - 47; var (post, r) := Malloc(pre, n, e);
      r.Some? && GetSize(post, r.value) == PAGE - HEADER
  {
    var n := SIZE_LIMIT - 47;
    hide LevelInv, Conserved, Supers, Blocks, PoolInv, BlockSize, And, BitScanReverse;
    assert RegionSize(n) == PAGE;
    MallocKeeps(pre, n, e);
  }

  // --- The copy of Realloc

  function Least(a: nat, b: nat): nat {
    if a < b then a else b
  }

  /** What a caller of Realloc can check before the call: the sum of the new size and the header
      fits a word or is exactly 2^64, for which the system refuses, or the old block is not larger
      than the one page that any other sum is cut to. */
  predicate CopyFits(n: nat, oldSize: nat) {
    n + HEADER <= SIZE_LIMIT || oldSize <= PAGE - HEADER
  }

  /** Realloc copies the smaller of the two sizes. This fits the new block if and only if
      CopyFits. */
  lemma CopyFitsIff(pre: Pool, n: nat, e: Env, oldSize: nat)
    requires PoolInv(pre) && EnvOk(pre, n, e) && Malloc(pre, n, e).1.Some? && n < SIZE_LIMIT
    ensures var (post, r) := Malloc(pre, n, e);
      Least(oldSize, n) <= GetSize(post, r.value) <==> CopyFits(n, oldSize)
  {
    hide LevelInv, Conserved, Supers, Blocks, PoolInv, SmallAlloc, IndexFromSize, GetSize;
    IndexFromSizeIsBestFit(n);
    MallocKeeps(pre, n, e);
    MallocSize(pre, n, e);
    if n + HEADER >= SIZE_LIMIT {
      WrappedRegion(n);
      DirectSize(pre, n, e);
    }
  }

  lemma WrappedRegion(n: nat)
    requires SIZE_LIMIT - HEADER <= n < SIZE_LIMIT
    ensures RegionSize(n) == if n + HEADER == SIZE_LIMIT then 0 else PAGE
  {
    assert (n + HEADER) % SIZE_LIMIT == n + HEADER - SIZE_LIMIT;
  }

  lemma DirectSize(pre: Pool, n: nat, e: Env)
    requires PoolInv(pre) && EnvOk(pre, n, e) && Malloc(pre, n, e).1.Some? && n > 16384
    ensures RegionSize(n) != 0
    ensures GetSize(Malloc(pre, n, e).0, Malloc(pre, n, e).1.value) == RegionSize(n) - HEADER
  {
    hide LevelInv, Conserved, Supers, Blocks, PoolInv, SmallAlloc, RegionSize, IndexFromSize;
    IndexFromSizeIsBestFit(n);
    MallocKeeps(pre, n, e);
    RegionSizeIsPages(n);
  }

  /** The failing case: every live block larger than a page less its header is too large for the
      block that a request for 2^64 - 47 bytes gets. */
  lemma HugeReallocOverruns(pre: Pool, p: nat, e: Env)
    requires PoolInv(pre) && IsLive(pre, p) && GetSize(pre, p) > PAGE - HEADER
    requires e.base.Some? && FreshFor(pre, e.base.value, PAGE)
    ensures var n := SIZE_LIMIT - 47; var (post, r) := Malloc(pre, n, e);
      r.Some? && Least(GetSize(pre, p), n) > GetSize(post, r.value) && IsLive(post, p)
  {
    hide LevelInv, Conserved, Supers, Blocks, PoolInv, GetSize, IsLive, SmallAlloc;
    var n := SIZE_LIMIT - 47;
    HugeRequestGetsOnePage(pre, e);
    MallocKeeps(pre, n, e);
  }

  // --- The client

  datatype Call = MallocCall(n: nat) | ReallocCall(p: nat, n: nat) | FreeCall(p: nat)

  /** One call together with what the system answers to the allocation and the release it may
      perform. */
  datatype Step = Step(call: Call, alloc: Env, release: Env)

  /** held: the request each pointer the client holds was made with. */
  datatype Client = Client(pool: Pool, held: map<nat, nat>)

  const START := Client(INITIAL, map[])

  ghost predicate Sound(c: Client) {
    && PoolInv(c.pool)
    && (forall p: nat :: p in c.held <==> IsLive(c.pool, p))
    && (forall p :: p in c.held ==>
          && c.held[p] < SIZE_LIMIT
          && (GetSize(c.pool, p) >= c.held[p] <==> c.held[p] + HEADER < SIZE_LIMIT))
  }

  /** There is a list and a counter for each bin. This is all that a call needs to be defined. */
  predicate Counts(c: Client) {
    |c.pool.bins| == |c.pool.counter| == BINS
  }

  /** What the client may do: it gives back pointers it holds, and does not ask for a size whose
      copy cannot fit (see CopyFits). */
  ghost predicate Legal(c: Client, s: Step)
    requires Counts(c)
  {
    match s.call
    case MallocCall(n) => n < SIZE_LIMIT && EnvOk(c.pool, n, s.alloc)
    case ReallocCall(p, n) =>
      && n < SIZE_LIMIT && EnvOk(c.pool, n, s.alloc)
      && (p == 0 || (p in c.held && (n == 0 || CopyFits(n, GetSize(c.pool, p)))))
    case FreeCall(p) => p == 0 || p in c.held
  }

  function DoMalloc(c: Client, n: nat, e: Env): (r: (Client, Option<nat>))
    requires Counts(c)
    ensures Counts(r.0)
  {
    MallocCounts(c.pool, n, e);
    var (post, r) := Malloc(c.pool, n, e);
    (Client(post, if r.Some? then c.held[r.value := n] else c.held), r)
  }

  function DoFree(c: Client, p: nat, e: Env): (d: Client)
    requires Counts(c)
    ensures Counts(d)
  {
    FreeCounts(c.pool, p, e);
    Client(Free(c.pool, p, e), c.held - {p})
  }

  lemma MallocCounts(pre: Pool, n: nat, e: Env)
    requires |pre.bins| == |pre.counter| == BINS
    ensures var post := Malloc(pre, n, e).0; |post.bins| == |post.counter| == BINS
  {
    hide Take, AddOwner, Move, SuperAlloc, Blocks, RegionSize;
  }

  lemma {:induction false} TrimBinCounts(pre: Pool, b: nat, s: seq<nat>, n: nat, time: nat, e: Env, j: nat)
    requires b < |pre.bins| && n <= |s|
    ensures var post := TrimBin(pre, b, s, n, time, e, j); |post.bins| == |pre.bins| && post.counter == pre.counter
    decreases n
  {
    hide SuperFree, DropOwner;
    if n > 0 {
      var c := s[n - 1];
      if c in pre.bins[b].own && Aged(pre.bins[b].own[c].last, time, e.maxAge) {
        TrimBinCounts(ReleaseChunk(pre, b, c, Tick(e, j), e.maxAge), b, s, n - 1, time, e, j + 1);
      } else {
        TrimBinCounts(pre, b, s, n - 1, time, e, j);
      }
    }
  }

  lemma FreeCounts(pre: Pool, p: nat, e: Env)
    requires |pre.bins| == |pre.counter| == BINS
    ensures var post := Free(pre, p, e); |post.bins| == |post.counter| == BINS
  {
    hide TrimBin, Give, Blocks, BlockSize;
    var c: nat := HeaderOf(p);
    if p != 0 && c in pre.owner && pre.owner[c] < BINS && c in pre.bins[pre.owner[c]].own && p >= c + HEADER {
      var b := pre.owner[c];
      var upd := Give(pre.bins[b], c, BlockIndex(b, p - c - HEADER), Blocks(b),
                      |pre.bins[b].own[c].free| + 1 > Blocks(b) / 4, Tick(e, 0));
      TrimBinCounts(pre.(bins := pre.bins[b := upd], counter := pre.counter[b := 0]), b, upd.freeL, |upd.freeL|,
                    Tick(e, 0), e, 1);
    }
  }

  /** The three entry points of the pool. */
  ghost function Next(c: Client, s: Step): (d: Client)
    requires Counts(c) && Legal(c, s)
    ensures Counts(d)
  {
    match s.call
    case MallocCall(n) => DoMalloc(c, n, s.alloc).0
    case FreeCall(p) => DoFree(c, p, s.release)
    case ReallocCall(p, n) =>
      if p == 0 then DoMalloc(c, n, s.alloc).0
      else if n == 0 then DoFree(c, p, s.release)
      else
        var (d, r) := DoMalloc(c, n, s.alloc);
        if r.Some? then DoFree(d, p, s.release) else d
  }

  /** The copy a Realloc performs between its allocation and its release stays inside the old block
      and inside the new one, which are both live at that moment and disjoint. */
  ghost predicate CopyInside(c: Client, s: Step)
    requires Counts(c)
  {
    s.call.ReallocCall? && s.call.p != 0 && s.call.n != 0 ==>
      var p, n := s.call.p, s.call.n;
      var (d, r) := DoMalloc(c, n, s.alloc);
      r.Some? ==>
        && IsLive(d.pool, p) && IsLive(d.pool, r.value)
        && GetSize(d.pool, p) == GetSize(c.pool, p)
        && Least(GetSize(c.pool, p), n) <= GetSize(d.pool, p)
        && Least(GetSize(c.pool, p), n) <= GetSize(d.pool, r.value)
        && Apart(p, GetSize(d.pool, p), r.value, GetSize(d.pool, r.value))
  }

  lemma InitialSound()
    ensures Sound(START)
  {
    forall b | 0 <= b < BINS ensures LevelInv(INITIAL.bins[b], Blocks(b), Blocks(b) / 4) {
      BlocksFit(b);
    }
  }

  lemma DoMallocSound(c: Client, n: nat, e: Env)
    requires Sound(c) && Counts(c) && n < SIZE_LIMIT && EnvOk(c.pool, n, e)
    ensures Sound(DoMalloc(c, n, e).0)
    ensures var (d, r) := DoMalloc(c, n, e);
      && (r.None? ==> d == c)
      && (r.Some? ==> r.value !in c.held && r.value != 0)
      && forall p :: p in c.held ==> p in d.held
  {
    hide PoolInv, Malloc, IsLive, EnvOk, GetSize;
    SoundPool(c);
    MallocKeeps(c.pool, n, e);
    MallocHeaders(c.pool, n, e);
    var (post, r) := Malloc(c.pool, n, e);
    if r.Some? {
      MallocSize(c.pool, n, e);
      forall p | p in c.held ensures GetSize(post, p) == GetSize(c.pool, p) {
        SizesStable(c.pool, post, p);
      }
    }
  }

  lemma SoundPool(c: Client)
    requires Sound(c)
    ensures Counts(c)
  {
  }

  lemma DoFreeSound(c: Client, p: nat, e: Env)
    requires Sound(c) && Counts(c) && p in c.held
    ensures Sound(DoFree(c, p, e))
  {
    hide PoolInv, Free, IsLive, GetSize;
    SoundPool(c);
    FreeKeeps(c.pool, p, e);
    FreeHeaders(c.pool, p, e);
    var post := Free(c.pool, p, e);
    forall q | q in c.held && q != p ensures GetSize(post, q) == GetSize(c.pool, q) {
      SizesStable(c.pool, post, q);
    }
  }

  /** Every call keeps the account: the pointers the client holds are exactly the blocks the
      allocator has handed out. */
  lemma StepSound(c: Client, s: Step)
    requires Sound(c) && Counts(c) && Legal(c, s)
    ensures Sound(Next(c, s))
  {
    hide PoolInv, Malloc, Free, IsLive, GetSize, EnvOk;
    SoundPool(c);
    match s.call
    case MallocCall(n) => DoMallocSound(c, n, s.alloc);
    case FreeCall(p) => FreeOrNull(c, p, s.release);
    case ReallocCall(p, n) =>
      if p == 0 {
        DoMallocSound(c, n, s.alloc);
      } else if n == 0 {
        DoFreeSound(c, p, s.release);
      } else {
        DoMallocSound(c, n, s.alloc);
        var (d, r) := DoMalloc(c, n, s.alloc);
        if r.Some? { DoFreeSound(d, p, s.release); }
      }
  }

  lemma FreeOrNull(c: Client, p: nat, e: Env)
    requires Sound(c) && (p == 0 || p in c.held)
    ensures Counts(c)
    ensures Sound(DoFree(c, p, e))
  {
    SoundPool(c);
    hide PoolInv, SmallFree, GetSize, LiveSmall, LiveDirect;
    NullNotHeld(c);
    if p == 0 {
      assert c.held - {p} == c.held;
    } else {
      DoFreeSound(c, p, e);
    }
  }

  lemma NullNotHeld(c: Client)
    requires Sound(c)
    ensures 0 !in c.held
  {
    hide PoolInv, IsLive, GetSize;
    if IsLive(c.pool, 0) { LiveExtent(c.pool, 0); }
  }

  /** For a client that is sound, CopyFits is exactly what keeps the copy inside. */
  lemma CopyInsideIff(c: Client, p: nat, n: nat, alloc: Env, release: Env)
    requires Sound(c) && Counts(c) && p in c.held && 0 < n < SIZE_LIMIT && EnvOk(c.pool, n, alloc)
    requires Malloc(c.pool, n, alloc).1.Some?
    ensures CopyInside(c, Step(ReallocCall(p, n), alloc, release)) <==> CopyFits(n, GetSize(c.pool, p))
  {
    hide PoolInv, Malloc, IsLive, GetSize, EnvOk, CopyFits;
    var (d, r) := DoMalloc(c, n, alloc);
    NullNotHeld(c);
    MallocKeeps(c.pool, n, alloc);
    MallocHeaders(c.pool, n, alloc);
    SizesStable(c.pool, d.pool, p);
    CopyFitsIff(c.pool, n, alloc, GetSize(c.pool, p));
    LiveDisjoint(d.pool, p, r.value);
  }

  lemma StepCopiesInside(c: Client, s: Step)
    requires Sound(c) && Counts(c) && Legal(c, s)
    ensures CopyInside(c, s)
  {
    hide PoolInv, Malloc, IsLive, GetSize, EnvOk, CopyFits;
    match s.call
    case MallocCall(_) =>
    case FreeCall(_) =>
    case ReallocCall(p, n) =>
      if p != 0 && n != 0 && Malloc(c.pool, n, s.alloc).1.Some? {
        CopyInsideIff(c, p, n, s.alloc, s.release);
      }
  }

  // --- Runs

  /** Every step is legal where it is taken. Nothing else is said of the states. */
  ghost predicate LegalRun(c: Client, steps: seq<Step>)
    requires Counts(c)
    decreases |steps|
  {
    steps != [] ==> Legal(c, steps[0]) && LegalRun(Next(c, steps[0]), steps[1..])
  }

  ghost function After(c: Client, steps: seq<Step>): (d: Client)
    requires Counts(c) && LegalRun(c, steps)
    ensures Counts(d)
    decreases |steps|
  {
    if steps == [] then c else After(Next(c, steps[0]), steps[1..])
  }

  ghost predicate CopiesInside(c: Client, steps: seq<Step>)
    requires Counts(c) && LegalRun(c, steps)
    decreases |steps|
  {
    steps != [] ==> CopyInside(c, steps[0]) && CopiesInside(Next(c, steps[0]), steps[1..])
  }

  lemma {:induction false} RunSound(c: Client, steps: seq<Step>)
    requires Sound(c) && Counts(c) && LegalRun(c, steps)
    ensures Sound(After(c, steps)) && CopiesInside(c, steps)
    decreases |steps|
  {
    hide Sound, Legal, Next, CopyInside;
    if steps == [] {
    } else {
      StepSound(c, steps[0]);
      StepCopiesInside(c, steps[0]);
      RunSound(Next(c, steps[0]), steps[1..]);
    }
  }

  /** After any run: the blocks the client holds are pairwise disjoint, each lies past the
      header of its 64 KiB chunk or of its own region and inside it, and each is as large as was
      asked for exactly when the request plus the header fits the address space. On the way, every
      copy that a Realloc made stayed inside the old and the new block. */
  lemma RunsAreSafe(steps: seq<Step>)
    requires LegalRun(START, steps)
    ensures CopiesInside(START, steps)
    ensures var c := After(START, steps);
      && (forall p, q :: p in c.held && q in c.held && p != q ==>
            Apart(p, GetSize(c.pool, p), q, GetSize(c.pool, q)))
      && (forall p: nat :: p in c.held ==>
            && HeaderOf(p) + HEADER <= p
            && (c.held[p] + HEADER < SIZE_LIMIT ==>
                  && GetSize(c.pool, p) >= c.held[p]
                  && p + c.held[p] <= HeaderOf(p) + Extent(c.pool, HeaderOf(p)))
            && (c.held[p] + HEADER >= SIZE_LIMIT ==> GetSize(c.pool, p) < c.held[p]))
  {
    hide PoolInv, LegalRun, After, IsLive, GetSize, Extent, CopiesInside;
    InitialSound();
    RunSound(START, steps);
    var c := After(START, steps);
    forall p, q | p in c.held && q in c.held && p != q
      ensures Apart(p, GetSize(c.pool, p), q, GetSize(c.pool, q))
    {
      LiveDisjoint(c.pool, p, q);
    }
    forall p: nat | p in c.held
      ensures HeaderOf(p) + HEADER <= p
      ensures c.held[p] + HEADER < SIZE_LIMIT ==>
        GetSize(c.pool, p) >= c.held[p] && p + c.held[p] <= HeaderOf(p) + Extent(c.pool, HeaderOf(p))
    {
      LiveExtent(c.pool, p);
    }
  }

  /** The condition in Legal is needed: after one allocation of 20000 bytes a client holds a block
      which a Realloc to 2^64 - 47 bytes would copy over the end of the new block. */
  lemma OverrunIsReachable() returns (first: Step, second: Step)
    ensures LegalRun(START, [first])
    ensures var c := After(START, [first]);
      && second.call.ReallocCall? && second.call.p in c.held && second.call.n == SIZE_LIMIT - 47
      && EnvOk(c.pool, second.call.n, second.alloc) && !CopyInside(c, second)
  {
    hide PoolInv, GetSize, IsLive, SmallAlloc, IndexFromSize, LiveSmall, LiveDirect;
    var e1, e2 := Env(Some(CHUNK), [], 0, 0), Env(Some(2 * CHUNK), [], 0, 0);
    var n := SIZE_LIMIT - 47;
    IndexFromSizeIsBestFit(20000);
    assert RegionSize(20000) == 20480;
    InitialSound();
    DoMallocSound(START, 20000, e1);
    var (c, r) := DoMalloc(START, 20000, e1);
    first, second := Step(MallocCall(20000), e1, e1), Step(ReallocCall(r.value, n), e2, e2);
    assert [first][1..] == [];
    assert LegalRun(START, [first]) && After(START, [first]) == c;
    MallocSize(INITIAL, 20000, e1);
    IndexFromSizeIsBestFit(n);
    WrappedRegion(n);
    assert c.pool.direct == map[CHUNK := 20480] && c.pool.sup.own == map[];
    HugeReallocOverruns(c.pool, r.value, e2);
    assert Sound(c) && !CopyInside(c, second);
  }

  // --- The space bound

  ghost function LiveBlocks(lev: Level, total: nat): set<(nat, nat)> {
    set k, i | k in lev.own && 0 <= i < total && i !in lev.own[k].free :: (k, i)
  }

  lemma {:induction false} LiveBlocksAtLeast(lev: Level, keys: set<nat>, total: nat, cap: nat)
    returns (r: set<(nat, nat)>)
    requires keys <= lev.own.Keys && cap <= total
    requires forall k :: k in keys ==> OwnerOk(lev.own[k], total) && |lev.own[k].free| <= cap
    ensures r <= LiveBlocks(lev, total)
    ensures forall x :: x in r ==> x.0 in keys
    ensures |r| >= |keys| * (total - cap)
    decreases |keys|
  {
    if keys == {} {
      r := {};
    } else {
      var k :| k in keys;
      var q := LiveBlocksAtLeast(lev, keys - {k}, total, cap);
      var mine := LiveOf(lev, k, total);
      r := q + mine;
      assert q !! mine;
      assert |r| == |q| + |mine|;
      assert |keys| * (total - cap) == (|keys| - 1) * (total - cap) + (total - cap);
    }
  }

  lemma LiveOf(lev: Level, k: nat, total: nat) returns (r: set<(nat, nat)>)
    requires k in lev.own && OwnerOk(lev.own[k], total)
    ensures r <= LiveBlocks(lev, total) && forall x :: x in r ==> x.0 == k
    ensures |r| == total - |lev.own[k].free|
  {
    var a := SetOf(lev.own[k].free);
    var b := CountUp(total);
    assert a <= b;
    r := PairUp(k, b - a);
  }

  lemma {:induction false} PairUp(k: nat, s: set<nat>) returns (r: set<(nat, nat)>)
    ensures forall x :: x in r <==> x.0 == k && x.1 in s
    ensures |r| == |s|
    decreases |s|
  {
    if s == {} {
      r := {};
    } else {
      var i :| i in s;
      var q := PairUp(k, s - {i});
      r := q + {(k, i)};
    }
  }

  /** Whenever a bin must ask for another chunk, at least `total - total/4` blocks of each of
      its chunks are live. */
  lemma SpaceBound(pre: Pool, b: nat)
    requires PoolInv(pre) && b < BINS
    requires pre.bins[b].inUse == [] && pre.bins[b].freeL == []
    ensures |LiveBlocks(pre.bins[b], Blocks(b))| >= |pre.bins[b].own| * (Blocks(b) - Blocks(b) / 4)
  {
    hide Blocks, BlockSize, PoolInv, LevelInv, LiveBlocks, OwnerOk;
    BinInvariant(pre, b);
    FreeListOwned(pre, b);
    var lev := pre.bins[b];
    AllFull(lev, Blocks(b), Blocks(b) / 4);
    var r := LiveBlocksAtLeast(lev, lev.own.Keys, Blocks(b), Blocks(b) / 4);
    SubsetSize(r, LiveBlocks(lev, Blocks(b)));
  }

  lemma AllFull(lev: Level, total: nat, cap: nat)
    requires LevelInv(lev, total, cap) && lev.inUse == [] && lev.freeL == []
    ensures cap < total
    ensures forall k :: k in lev.own ==> k in lev.full && OwnerOk(lev.own[k], total) && |lev.own[k].free| <= cap
  {
    assert forall k :: k in lev.own ==> Placed(lev, k, total, cap);
  }

  /** Memory for a new superchunk is asked for only when every slot of every existing one is in
      the hands of a bin. */
  lemma NewSuperchunkOnlyWhenFull(pre: Pool, base: Option<nat>, k: nat, i: nat)
    requires PoolInv(pre)
    requires base.Some? && FreshFor(pre, base.value, SUPERCHUNK)
    requires base.value in SuperAlloc(pre.sup, base).0.own
    requires k in pre.sup.own && i < SLOTS
    ensures SlotAt(k, i) in pre.owner
  {
    FreshSuperOf(pre, base);
    assert base.value !in pre.sup.own || Apart(base.value, SUPERCHUNK, base.value, SUPERCHUNK);
    SuperReadyKeeps(pre.sup, base, pre.owner);
    TakeKeeps(SuperReady(pre.sup, base), SLOTS, 0);
    assert Placed(pre.sup, k, SLOTS, 0);
    assert Live(pre.sup, k, i, SLOTS);
  }
}
