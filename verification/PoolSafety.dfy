/** Every operation keeps the pool's invariant and changes the set of live blocks by exactly the
block it hands out or takes back; from there, safety of whole runs. */
module PoolSafety {
  import opened Options
  import opened PoolModel
  import opened SlabLevel

  // --- The superchunk level

  lemma SlotUnique(sups: Level, k: nat, i: nat, x: nat, j: nat)
    requires Supers(sups) && k in sups.own && x in sups.own && i < SLOTS && j < SLOTS
    requires SlotAt(k, i) == SlotAt(x, j)
    ensures k == x && i == j
  {
    assert k == x || Apart(k, SUPERCHUNK, x, SUPERCHUNK);
  }

  lemma {:induction false} FindCorrect(s: seq<nat>, p: nat)
    ensures match Find(s, p)
      case Some(k) => k in s && k <= p < k + SUPERCHUNK
      case None => forall k :: k in s ==> !(k <= p < k + SUPERCHUNK)
  {
    if s != [] {
      FindCorrect(s[1..], p);
      assert forall x :: x in s <==> x == s[0] || x in s[1..];
    }
  }

  ghost predicate FreshSuper(sups: Level, base: Option<nat>) {
    base.Some? ==>
      && base.value % CHUNK == 0 && base.value >= CHUNK
      && forall k :: k in sups.own ==> Apart(base.value, SUPERCHUNK, k, SUPERCHUNK)
  }

  ghost predicate SuperOk(sups: Level, owner: map<nat, nat>) {
    LevelInv(sups, SLOTS, 0) && Supers(sups) && Conserved(sups, owner)
  }

  /** The superchunk from which SuperAlloc takes its slot. */
  function SuperReady(sups: Level, base: Option<nat>): Level {
    if sups.inUse != [] then sups
    else if sups.freeL != [] then Move(sups, sups.freeL[0], ToInUse)
    else match base case None => sups case Some(k) => AddOwner(sups, k, SLOTS)
  }

  lemma SuperReadyKeeps(sups: Level, base: Option<nat>, owner: map<nat, nat>)
    requires SuperOk(sups, owner) && FreshSuper(sups, base)
    ensures var rdy := SuperReady(sups, base);
      && Supers(rdy) && Conserved(rdy, owner)
      && (sups.inUse == [] && sups.freeL == [] && base.None? ==> rdy == sups)
      && (!(sups.inUse == [] && sups.freeL == [] && base.None?) ==> Ready(rdy, SLOTS, 0))
      && (forall k :: k in rdy.own ==> k in sups.own || (sups.inUse == [] && sups.freeL == [] && base == Some(k)))
      && sups.own.Keys <= rdy.own.Keys
      && (forall k, i: nat :: Live(rdy, k, i, SLOTS) <==> Live(sups, k, i, SLOTS))
  {
    var rdy := SuperReady(sups, base);
    if sups.inUse != [] {
      InUseReady(sups, SLOTS, 0);
    } else if sups.freeL != [] {
      RecycleReady(sups, SLOTS, 0);
      assert rdy.own == sups.own;
      assert forall k, i: nat, c :: IsSlot(sups, k, i, c) ==> IsSlot(rdy, k, i, c);
    } else if base.Some? {
      assert base.value !in sups.own || Apart(base.value, SUPERCHUNK, base.value, SUPERCHUNK);
      AddReady(sups, base.value, SLOTS, 0);
      NewSuperConserved(sups, base.value, owner);
    }
  }

  lemma NewSuperConserved(sups: Level, base: nat, owner: map<nat, nat>)
    requires SuperOk(sups, owner) && FreshSuper(sups, Some(base)) && base !in sups.own
    ensures Conserved(AddOwner(sups, base, SLOTS), owner)
    ensures Supers(AddOwner(sups, base, SLOTS))
  {
    var rdy := AddOwner(sups, base, SLOTS);
    AddReady(sups, base, SLOTS, 0);
    forall c | c in owner ensures exists k, i: nat :: IsSlot(rdy, k, i, c) {
      var k, i: nat :| IsSlot(sups, k, i, c);
      assert IsSlot(rdy, k, i, c);
    }
    forall k, i: nat | k in rdy.own && i < SLOTS
      ensures SlotAt(k, i) in owner <==> Live(rdy, k, i, SLOTS)
    {
      assert forall x, j: nat :: IsSlot(sups, x, j, SlotAt(base, i)) ==> Apart(base, SUPERCHUNK, x, SUPERCHUNK);
    }
  }

  /** A slot handed out by the superchunk manager belonged to no bin; it now belongs to bin b
      and everything else is as before. The manager fails only when all its superchunks are
      completely full and the system has no memory. */
  lemma SuperAllocKeeps(sups: Level, base: Option<nat>, owner: map<nat, nat>, b: nat)
    requires SuperOk(sups, owner) && FreshSuper(sups, base)
    ensures var (nxt, slot) := SuperAlloc(sups, base);
      && (slot.None? <==> sups.inUse == [] && sups.freeL == [] && base.None?)
      && (slot.None? ==> nxt == sups)
      && (slot.Some? ==>
            && slot.value !in owner
            && slot.value % CHUNK == 0 && slot.value >= CHUNK
            && SuperOk(nxt, owner[slot.value := b])
            && sups.own.Keys <= nxt.own.Keys
            && (exists k, i: nat :: IsSlot(nxt, k, i, slot.value) && !Live(sups, k, i, SLOTS))
            && (forall k :: k in nxt.own ==>
                  k in sups.own || (sups.inUse == [] && sups.freeL == [] && base == Some(k))))
  {
    hide LevelInv, Conserved, Supers, Live, Ready, Shape, Take, Move, AddOwner;
    SuperReadyKeeps(sups, base, owner);
    var rdy := SuperReady(sups, base);
    if sups.inUse == [] && sups.freeL == [] && base.None? {
      assert rdy == sups;
    } else {
      TakeKeeps(rdy, SLOTS, 0);
      var t := Take(rdy);
      var c := SlotAt(t.owner, t.block);
      TakeConserved(rdy, owner, b);
      assert SuperAlloc(sups, base) == (t.level, Some(c));
      assert IsSlot(t.level, t.owner, t.block, c);
      assert !Live(sups, t.owner, t.block, SLOTS);
    }
  }

  lemma TakeConserved(rdy: Level, owner: map<nat, nat>, b: nat)
    requires Ready(rdy, SLOTS, 0) && Supers(rdy) && Conserved(rdy, owner)
    ensures var t := Take(rdy); var c := SlotAt(t.owner, t.block);
      && t.owner in rdy.own && t.block < SLOTS && c !in owner
      && c % CHUNK == 0 && c >= CHUNK
      && Conserved(t.level, owner[c := b]) && Supers(t.level)
  {
    hide Take, LevelInv, Ready;
    TakeKeeps(rdy, SLOTS, 0);
    var t := Take(rdy);
    var c := SlotAt(t.owner, t.block);
    var nxt := t.level;
    assert Live(nxt, t.owner, t.block, SLOTS);
    forall k, i: nat | k in nxt.own && i < SLOTS
      ensures SlotAt(k, i) in owner[c := b] <==> Live(nxt, k, i, SLOTS)
    {
      if SlotAt(k, i) == c { SlotUnique(rdy, k, i, t.owner, t.block); }
    }
    var given := owner[c := b];
    forall x | x in given ensures exists k, i: nat :: IsSlot(nxt, k, i, x) {
      if x == c {
        assert IsSlot(nxt, t.owner, t.block, c);
      } else {
        var k, i: nat :| IsSlot(rdy, k, i, x);
        assert IsSlot(nxt, k, i, x);
      }
    }
  }

  /** Where SuperFree finds the superchunk of a chunk some bin owns. */
  lemma FindOwner(sups: Level, owner: map<nat, nat>, c: nat) returns (k: nat, i: nat)
    requires SuperOk(sups, owner) && c in owner
    ensures IsSlot(sups, k, i, c) && Live(sups, k, i, SLOTS) && i == (c - k) / CHUNK
    ensures Find(sups.inUse, c) == Some(k) || (Find(sups.inUse, c) == None && Find(sups.full, c) == Some(k))
    ensures Find(sups.inUse, c) == Some(k) ==> k !in sups.full
  {
    k, i :| IsSlot(sups, k, i, c);
    assert SlotAt(k, i) in owner;
    FindCorrect(sups.inUse, c);
    FindCorrect(sups.full, c);
    assert Placed(sups, k, SLOTS, 0);
    Pigeonhole(sups.own[k].free, SLOTS);
    forall x | x in sups.own && x <= c < x + SUPERCHUNK ensures x == k {
      assert x == k || Apart(x, SUPERCHUNK, k, SUPERCHUNK);
    }
  }

  lemma GiveConserved(sups: Level, owner: map<nat, nat>, k: nat, i: nat, promote: bool, tick: nat)
    requires Supers(sups) && Conserved(sups, owner) && Live(sups, k, i, SLOTS)
    ensures Conserved(Give(sups, k, i, SLOTS, promote, tick), owner - {SlotAt(k, i)})
  {
    GiveLive(sups, k, i, SLOTS, promote, tick);
    var nxt := Give(sups, k, i, SLOTS, promote, tick);
    var rest := owner - {SlotAt(k, i)};
    forall x, j: nat | x in nxt.own && j < SLOTS
      ensures SlotAt(x, j) in rest <==> Live(nxt, x, j, SLOTS)
    {
      if SlotAt(x, j) == SlotAt(k, i) { SlotUnique(sups, x, j, k, i); }
    }
    forall y | y in rest ensures exists x, j: nat :: IsSlot(nxt, x, j, y) {
      var x, j: nat :| IsSlot(sups, x, j, y);
      assert IsSlot(nxt, x, j, y);
    }
  }

  lemma TrimConserved(sups: Level, owner: map<nat, nat>, time: nat, maxAge: nat)
    requires SuperOk(sups, owner)
    ensures SuperOk(Trim(sups, sups.freeL, |sups.freeL|, time, maxAge), owner)
  {
    hide Supers, Conserved, Trim, Live, OwnerOk, Placed;
    TrimKeeps(sups, sups.freeL, |sups.freeL|, time, maxAge, SLOTS, 0);
    SameLiveConserved(sups, Trim(sups, sups.freeL, |sups.freeL|, time, maxAge), owner);
  }

  /** Superchunks that leave without taking a live slot along leave the rest sound. */
  lemma SameLiveConserved(sups: Level, nxt: Level, owner: map<nat, nat>)
    requires Supers(sups) && Conserved(sups, owner) && nxt.own.Keys <= sups.own.Keys
    requires forall k, i: nat :: Live(nxt, k, i, SLOTS) <==> Live(sups, k, i, SLOTS)
    ensures Supers(nxt) && Conserved(nxt, owner)
  {
    forall y | y in owner ensures exists x, j: nat :: IsSlot(nxt, x, j, y) {
      var x, j: nat :| IsSlot(sups, x, j, y);
      assert Live(sups, x, j, SLOTS);
      assert Live(nxt, x, j, SLOTS);
      assert IsSlot(nxt, x, j, y);
    }
  }

  /** Returning a chunk keeps the superchunk level sound, and its Trim releases no superchunk
      that still holds a chunk of some bin. */
  lemma SuperFreeKeeps(sups: Level, owner: map<nat, nat>, c: nat, tick: nat, maxAge: nat)
    requires SuperOk(sups, owner) && c in owner
    ensures SuperOk(SuperFree(sups, c, tick, maxAge), owner - {c})
    ensures SuperFree(sups, c, tick, maxAge).own.Keys <= sups.own.Keys
  {
    hide LevelInv, Conserved, Supers, Shape, Give, Trim, Find;
    var k, i := FindOwner(sups, owner, c);
    var promote := Find(sups.inUse, c).None?;
    GiveKeeps(sups, k, i, SLOTS, 0, promote, tick);
    GiveLive(sups, k, i, SLOTS, promote, tick);
    GiveConserved(sups, owner, k, i, promote, tick);
    var upd := Give(sups, k, i, SLOTS, promote, tick);
    GiveSupers(sups, upd);
    TrimConserved(upd, owner - {c}, tick, maxAge);
    FreeListDistinct(upd, SLOTS, 0);
    TrimKeeps(upd, upd.freeL, |upd.freeL|, tick, maxAge, SLOTS, 0);
    assert SuperFree(sups, c, tick, maxAge) == Trim(upd, upd.freeL, |upd.freeL|, tick, maxAge);
  }

  lemma GiveSupers(sups: Level, upd: Level)
    requires Supers(sups) && upd.own.Keys == sups.own.Keys
    ensures Supers(upd)
  {
    assert forall k :: k in upd.own ==> k in sups.own;
  }

  lemma FreeListDistinct(lev: Level, total: nat, cap: nat)
    requires LevelInv(lev, total, cap)
    ensures NoDup(lev.freeL) && forall k :: k in lev.freeL ==> k in lev.own
  {
  }

  // --- Blocks and their headers

  lemma MulDiv(i: nat, d: nat)
    requires d > 0
    ensures i * d % d == 0 && i * d / d == i
  {
    QuotientBound(i * d / d, i * d % d, d, i);
    QuotientBound(i, 0, d, i * d / d);
  }

  lemma DivExact(x: nat, d: nat)
    requires d > 0 && x % d == 0
    ensures x == x / d * d
  {
  }

  /** Masking the low 16 bits of a block's address gives its chunk, and the offset past the
      header gives the block's number. */
  lemma BlockDecode(b: nat, c: nat, i: nat)
    requires b < BINS && c % CHUNK == 0 && i < Blocks(b)
    ensures var p := BlockAt(b, c, i);
      && HeaderOf(p) == c && c + HEADER <= p && p + BlockSize(b) <= c + CHUNK
      && (p - c - HEADER) % BlockSize(b) == 0 && BlockIndex(b, p - c - HEADER) == i
  {
    hide Blocks, BlockSize, HeaderOf;
    BlocksFit(b);
    OffsetDecode(c, i, Blocks(b), BlockSize(b));
  }

  lemma OffsetDecode(c: nat, i: nat, n: nat, d: nat)
    requires c % CHUNK == 0 && i < n && d > 0 && HEADER + n * d <= CHUNK
    ensures var p := c + HEADER + i * d;
      && HeaderOf(p) == c && p + d <= c + CHUNK
      && (p - c - HEADER) % d == 0 && (p - c - HEADER) / d == i
  {
    hide HeaderOf;
    MulDiv(i, d);
    BlockInside(i, n, d);
    var x := i * d;
    HeaderOfOffset(c, HEADER + x);
    assert c + HEADER + i * d == c + (HEADER + x);
  }

  lemma BlockInside(i: nat, n: nat, d: nat)
    requires i < n
    ensures i * d + d <= n * d
  {
    MulLe(i + 1, n, d);
  }

  lemma HeaderOfOffset(c: nat, offset: nat)
    requires c % CHUNK == 0 && offset < CHUNK
    ensures HeaderOf(c + offset) == c
  {
  }

  /** A live small pointer is the address of a block that is not on its chunk's free list. */
  lemma LiveSmallIsBlock(pre: Pool, p: nat) returns (b: nat, c: nat, i: nat)
    requires PoolInv(pre) && LiveSmall(pre, p)
    ensures c == HeaderOf(p) && c in pre.owner && b == pre.owner[c] && b < BINS
    ensures i == BlockIndex(b, p - c - HEADER) && p == BlockAt(b, c, i)
    ensures Live(pre.bins[b], c, i, Blocks(b))
    ensures c + HEADER <= p && p + BlockSize(b) <= c + CHUNK
  {
    hide Blocks, BlockSize, LevelInv, Conserved, Regions, Supers, Shape;
    c := HeaderOf(p);
    b := pre.owner[c];
    i := BlockIndex(b, p - c - HEADER);
    DivExact(p - c - HEADER, BlockSize(b));
    BlockDecode(b, c, i);
  }

  lemma OwnedIsAligned(pre: Pool, c: nat)
    requires PoolInv(pre) && c in pre.owner
    ensures c % CHUNK == 0 && c >= CHUNK
    ensures exists k, i: nat :: IsSlot(pre.sup, k, i, c)
  {
    var k, i: nat :| IsSlot(pre.sup, k, i, c);
  }

  /** No chunk of a bin is the header of a direct allocation. */
  lemma DirectNotOwned(pre: Pool, d: nat)
    requires PoolInv(pre) && d in pre.direct
    ensures d !in pre.owner
  {
    assert forall k, i: nat :: IsSlot(pre.sup, k, i, d) ==> Apart(d, pre.direct[d], k, SUPERCHUNK);
  }

  // --- Allocation

  ghost predicate SameDirect(pre: Pool, post: Pool) {
    post.direct == pre.direct && post.counter == pre.counter
  }

  /** What handing out p does to the set of live pointers. */
  ghost predicate Adds(pre: Pool, post: Pool, p: nat) {
    && !IsLive(pre, p) && IsLive(post, p) && p != 0
    && forall q: nat :: q != p ==> (IsLive(post, q) <==> IsLive(pre, q))
  }

  /** The pool with the bin's next chunk at hand: only the head of bin b's in-use list may be
      out of class. */
  ghost predicate AllButBin(pre: Pool, b: nat, lev: Level) {
    && b < BINS
    && |pre.bins| == |pre.counter| == BINS
    && (forall x :: 0 <= x < BINS && x != b ==> LevelInv(pre.bins[x], Blocks(x), Blocks(x) / 4))
    && (forall c :: c in pre.owner ==> pre.owner[c] < BINS)
    && (forall x, c :: 0 <= x < BINS && x != b ==> (c in pre.bins[x].own <==> c in pre.owner && pre.owner[c] == x))
    && (forall c :: c in lev.own <==> c in pre.owner && pre.owner[c] == b)
    && LevelInv(pre.sup, SLOTS, 0) && Conserved(pre.sup, pre.owner) && Regions(pre)
  }

  /** Changing one block of one chunk changes the liveness of one pointer. */
  lemma LiveUpdate(pre: Pool, post: Pool, b: nat, c: nat, i: nat)
    requires |pre.bins| == |post.bins| == BINS && b < BINS && post.direct == pre.direct && post.owner == pre.owner
    requires forall x :: 0 <= x < BINS && x != b ==> post.bins[x] == pre.bins[x]
    requires c % CHUNK == 0 && c in pre.owner && pre.owner[c] == b && i < Blocks(b)
    requires forall x, j: nat :: x != c || j != i ==>
      (Live(post.bins[b], x, j, Blocks(b)) <==> Live(pre.bins[b], x, j, Blocks(b)))
    ensures LiveSmall(pre, BlockAt(b, c, i)) <==> Live(pre.bins[b], c, i, Blocks(b))
    ensures LiveSmall(post, BlockAt(b, c, i)) <==> Live(post.bins[b], c, i, Blocks(b))
    ensures forall q: nat :: q != BlockAt(b, c, i) ==> (IsLive(post, q) <==> IsLive(pre, q))
  {
    BlockDecode(b, c, i);
    hide Blocks, BlockSize, Live;
    forall q: nat | q != BlockAt(b, c, i) ensures LiveSmall(post, q) <==> LiveSmall(pre, q) {
      var h: nat := HeaderOf(q);
      if h in pre.owner && pre.owner[h] == b && q >= h + HEADER && (q - h - HEADER) % BlockSize(b) == 0 {
        DivExact(q - h - HEADER, BlockSize(b));
        var j := BlockIndex(b, q - h - HEADER);
        assert q == BlockAt(b, h, j);
      }
    }
  }

  lemma LiveOwned(lev: Level, k: nat, i: nat, total: nat)
    requires Live(lev, k, i, total)
    ensures k in lev.own && i < total
  {
  }

  lemma TakeBlockInv(pre: Pool, b: nat, lev: Level)
    requires AllButBin(pre, b, lev) && Ready(lev, Blocks(b), Blocks(b) / 4)
    ensures CanTake(lev) && TakeBlock(pre, b, lev).1.Some?
    ensures PoolInv(pre.(bins := pre.bins[b := Take(lev).level]))
    ensures TakeBlock(pre, b, lev).0 == pre.(bins := pre.bins[b := Take(lev).level])
  {
    hide Blocks, BlockSize, LevelInv, Take, Conserved, Supers, Live, Ready, Shape;
    TakeKeeps(lev, Blocks(b), Blocks(b) / 4);
    var t := Take(lev);
    var post := pre.(bins := pre.bins[b := t.level]);
    forall x | 0 <= x < BINS ensures LevelInv(post.bins[x], Blocks(x), Blocks(x) / 4) {}
    assert forall c :: c in t.level.own <==> c in lev.own;
    assert BinsOk(post);
  }

  lemma TakeBlockKeeps(pre: Pool, b: nat, lev: Level)
    requires AllButBin(pre, b, lev) && Ready(lev, Blocks(b), Blocks(b) / 4)
    ensures var (post, r) := TakeBlock(pre, b, lev);
      && r.Some? && PoolInv(post) && SameDirect(pre, post) && post.owner == pre.owner && post.sup == pre.sup
      && HeaderOf(r.value) in pre.owner && pre.owner[HeaderOf(r.value)] == b
      && Adds(pre.(bins := pre.bins[b := lev]), post, r.value)
  {
    hide Blocks, BlockSize, LevelInv, Take, Conserved, Supers, Live, Ready, Shape;
    TakeBlockInv(pre, b, lev);
    TakeKeeps(lev, Blocks(b), Blocks(b) / 4);
    var t := Take(lev);
    LiveOwned(t.level, t.owner, t.block, Blocks(b));
    var post := pre.(bins := pre.bins[b := t.level]);
    OwnedIsAligned(post, t.owner);
    BlockDecode(b, t.owner, t.block);
    LiveUpdate(pre.(bins := pre.bins[b := lev]), post, b, t.owner, t.block);
    DirectNotLive(post, t.owner);
  }

  lemma DirectNotLive(pre: Pool, c: nat)
    requires PoolInv(pre) && c in pre.owner
    ensures c !in pre.direct
  {
    assert c !in pre.direct || c in pre.direct;
    if c in pre.direct { DirectNotOwned(pre, c); }
  }

  lemma SameLive(pre: Pool, post: Pool, b: nat)
    requires |pre.bins| == |post.bins| && b < |pre.bins| && post.direct == pre.direct
    requires forall x :: 0 <= x < |pre.bins| && x != b ==> post.bins[x] == pre.bins[x]
    requires forall c :: c in pre.owner ==> c in post.owner && post.owner[c] == pre.owner[c]
    requires forall c :: c in post.owner && c !in pre.owner ==> post.owner[c] == b && c !in pre.bins[b].own
    requires forall c, i: nat :: Live(post.bins[b], c, i, Blocks(b)) <==> Live(pre.bins[b], c, i, Blocks(b))
    ensures forall q: nat :: IsLive(post, q) <==> IsLive(pre, q)
  {
    hide Blocks, BlockSize;
  }

  lemma SplitBin(pre: Pool, b: nat, lev: Level)
    requires PoolInv(pre) && b < BINS && lev.own == pre.bins[b].own
    ensures AllButBin(pre, b, lev)
  {
    hide Blocks, BlockSize, LevelInv, Conserved, Supers;
    assert forall c :: c in lev.own <==> c in pre.bins[b].own;
  }

  lemma MoveLive(lev: Level, k: nat, d: Dest)
    ensures Move(lev, k, d).own == lev.own
  {
  }

  lemma SameBinLive(pre: Pool, b: nat, lev: Level)
    requires PoolInv(pre) && b < BINS && lev.own == pre.bins[b].own
    ensures forall q: nat :: IsLive(pre.(bins := pre.bins[b := lev]), q) <==> IsLive(pre, q)
  {
    hide Blocks, BlockSize, LevelInv, Conserved, Supers, Shape;
    SameLive(pre, pre.(bins := pre.bins[b := lev]), b);
  }

  /** SmallHeapAlloc of bin b either fails and changes nothing, which takes a system out of
      memory and all the bin's chunks on its full list, or hands out one block that was free. */
  lemma SmallAllocKeeps(pre: Pool, b: nat, base: Option<nat>)
    requires PoolInv(pre) && b < BINS
    requires base.Some? ==> FreshFor(pre, base.value, SUPERCHUNK)
    ensures var (post, r) := SmallAlloc(pre, b, base);
      && PoolInv(post) && SameDirect(pre, post)
      && (r.None? ==> post == pre && base.None? && pre.bins[b].inUse == [] && pre.bins[b].freeL == [])
      && (r.Some? ==> Adds(pre, post, r.value) && HeaderOf(r.value) in post.owner && post.owner[HeaderOf(r.value)] == b)
  {
    hide Blocks, BlockSize, LevelInv, Conserved, Supers, Live, Ready, Shape, Take, TakeBlock, AllButBin, SuperAlloc,
        IsLive, Move;
    var lev := pre.bins[b];
    var cap := Blocks(b) / 4;
    BinInvariant(pre, b);
    if lev.inUse != [] {
      InUseReady(lev, Blocks(b), cap);
      SplitBin(pre, b, lev);
      TakeBlockKeeps(pre, b, lev);
      SameBinLive(pre, b, lev);
    } else if lev.freeL != [] {
      RecycleReady(lev, Blocks(b), cap);
      var upd := Move(lev, lev.freeL[0], ToInUse);
      MoveLive(lev, lev.freeL[0], ToInUse);
      SplitBin(pre, b, upd);
      TakeBlockKeeps(pre, b, upd);
      SameBinLive(pre, b, upd);
    } else {
      FreshSuperOf(pre, base);
      SuperAllocKeeps(pre.sup, base, pre.owner, b);
      if SuperAlloc(pre.sup, base).1.Some? {
        NewChunkKeeps(pre, b, base);
      }
    }
  }

  lemma BinInvariant(pre: Pool, b: nat)
    requires PoolInv(pre) && b < BINS
    ensures LevelInv(pre.bins[b], Blocks(b), Blocks(b) / 4)
    ensures forall c :: c in pre.bins[b].own <==> c in pre.owner && pre.owner[c] == b
  {
    hide Blocks, BlockSize, LevelInv, Conserved, Supers;
  }

  lemma FreshSuperOf(pre: Pool, base: Option<nat>)
    requires PoolInv(pre)
    requires base.Some? ==> FreshFor(pre, base.value, SUPERCHUNK)
    ensures SuperOk(pre.sup, pre.owner) && FreshSuper(pre.sup, base)
  {
    hide Blocks, BlockSize, LevelInv, Conserved, Supers;
  }

  /** The pool after SmallHeapAlloc got the slot c for a new chunk of bin b. */
  ghost function WithSlot(pre: Pool, b: nat, sups: Level, c: nat): Pool {
    pre.(sup := sups, owner := pre.owner[c := b])
  }

  lemma NewChunkSplit(pre: Pool, b: nat, base: Option<nat>)
    requires PoolInv(pre) && b < BINS
    requires base.Some? ==> FreshFor(pre, base.value, SUPERCHUNK)
    requires SuperAlloc(pre.sup, base).1.Some?
    ensures var (sups, slot) := SuperAlloc(pre.sup, base); var c := slot.value;
      c !in pre.owner && AllButBin(WithSlot(pre, b, sups, c), b, AddOwner(pre.bins[b], c, Blocks(b)))
  {
    hide Blocks, BlockSize, LevelInv, Conserved, SuperAlloc, Live, Count;
    FreshSuperOf(pre, base);
    SuperAllocKeeps(pre.sup, base, pre.owner, b);
    var (sups, slot) := SuperAlloc(pre.sup, base);
    var post := WithSlot(pre, b, sups, slot.value);
    forall d, k | d in post.direct && k in sups.own ensures Apart(d, post.direct[d], k, SUPERCHUNK) {
      assert k in pre.sup.own || base == Some(k);
    }
  }

  lemma NewChunkKeeps(pre: Pool, b: nat, base: Option<nat>)
    requires PoolInv(pre) && b < BINS
    requires base.Some? ==> FreshFor(pre, base.value, SUPERCHUNK)
    requires pre.bins[b].inUse == [] && pre.bins[b].freeL == []
    requires SuperAlloc(pre.sup, base).1.Some?
    ensures var (post, r) := SmallAlloc(pre, b, base);
      && PoolInv(post) && SameDirect(pre, post)
      && r.Some? && Adds(pre, post, r.value)
      && HeaderOf(r.value) in post.owner && post.owner[HeaderOf(r.value)] == b
  {
    hide Blocks, BlockSize, LevelInv, Conserved, Supers, SuperAlloc, Live, AddOwner, Ready, Take, TakeBlock, Count,
        IsLive, AllButBin, Shape;
    var (sups, slot) := SuperAlloc(pre.sup, base);
    var c := slot.value;
    BinInvariant(pre, b);
    NewChunkSplit(pre, b, base);
    AddReady(pre.bins[b], c, Blocks(b), Blocks(b) / 4);
    var post := WithSlot(pre, b, sups, c);
    var upd := AddOwner(pre.bins[b], c, Blocks(b));
    TakeBlockKeeps(post, b, upd);
    SameLive(pre, post.(bins := post.bins[b := upd]), b);
  }

  // --- Deallocation

  /** What taking back p does to the set of live pointers. */
  ghost predicate Removes(pre: Pool, post: Pool, p: nat) {
    && IsLive(pre, p) && !IsLive(post, p)
    && forall q: nat :: q != p ==> (IsLive(post, q) <==> IsLive(pre, q))
  }

  lemma ReleaseChunkInv(pre: Pool, b: nat, c: nat, tick: nat, maxAge: nat)
    requires PoolInv(pre) && b < BINS && c in pre.bins[b].freeL
    ensures PoolInv(ReleaseChunk(pre, b, c, tick, maxAge))
    ensures SameDirect(pre, ReleaseChunk(pre, b, c, tick, maxAge))
  {
    hide Blocks, BlockSize, LevelInv, Conserved, Live, SuperFree, Shape, Without;
    BinInvariant(pre, b);
    FreeListDistinct(pre.bins[b], Blocks(b), Blocks(b) / 4);
    var post := ReleaseChunk(pre, b, c, tick, maxAge);
    DropKeeps(pre.bins[b], c, Blocks(b), Blocks(b) / 4);
    SuperFreeKeeps(pre.sup, pre.owner, c, tick, maxAge);
    forall x | 0 <= x < BINS ensures LevelInv(post.bins[x], Blocks(x), Blocks(x) / 4) {}
    assert forall k :: k in post.sup.own ==> k in pre.sup.own;
    assert BinsOk(post);
    assert Regions(post);
  }

  /** A chunk the bin's Trim releases holds no live block, and the release changes no live
      block anywhere. */
  lemma ReleaseChunkKeeps(pre: Pool, b: nat, c: nat, tick: nat, maxAge: nat)
    requires PoolInv(pre) && b < BINS && c in pre.bins[b].freeL
    ensures PoolInv(ReleaseChunk(pre, b, c, tick, maxAge))
    ensures forall p: nat :: HeaderOf(p) == c ==> !LiveSmall(pre, p)
    ensures forall q: nat :: IsLive(ReleaseChunk(pre, b, c, tick, maxAge), q) <==> IsLive(pre, q)
    ensures SameDirect(pre, ReleaseChunk(pre, b, c, tick, maxAge))
  {
    hide Blocks, BlockSize, LevelInv, Conserved, Supers, Live, SuperFree, Shape, Without, DropOwner;
    ReleaseChunkInv(pre, b, c, tick, maxAge);
    BinInvariant(pre, b);
    FreeListDistinct(pre.bins[b], Blocks(b), Blocks(b) / 4);
    DropKeeps(pre.bins[b], c, Blocks(b), Blocks(b) / 4);
    var post := ReleaseChunk(pre, b, c, tick, maxAge);
    forall q: nat ensures LiveSmall(post, q) <==> LiveSmall(pre, q) {
      var h: nat := HeaderOf(q);
      if h in pre.owner && h != c {
        assert h in post.owner && post.owner[h] == pre.owner[h];
      }
    }
  }

  lemma {:induction false} TrimBinKeeps(pre: Pool, b: nat, s: seq<nat>, n: nat, time: nat, e: Env, j: nat)
    requires PoolInv(pre) && b < BINS && n <= |s| && NoDup(s)
    requires forall x :: 0 <= x < n ==> s[x] in pre.bins[b].freeL
    ensures PoolInv(TrimBin(pre, b, s, n, time, e, j))
    ensures forall q: nat :: IsLive(TrimBin(pre, b, s, n, time, e, j), q) <==> IsLive(pre, q)
    ensures SameDirect(pre, TrimBin(pre, b, s, n, time, e, j))
    decreases n
  {
    hide PoolInv, IsLive, ReleaseChunk, TrimBin, Aged;
    FreeListOwned(pre, b);
    if n == 0 {
      TrimNothing(pre, b, s, time, e, j);
    } else {
      var c := s[n - 1];
      TrimBinStep(pre, b, s, n, time, e, j);
      if Aged(pre.bins[b].own[c].last, time, e.maxAge) {
        ReleaseChunkKeeps(pre, b, c, Tick(e, j), e.maxAge);
        ReleaseChunkList(pre, b, c, Tick(e, j), e.maxAge);
        TrimBinKeeps(ReleaseChunk(pre, b, c, Tick(e, j), e.maxAge), b, s, n - 1, time, e, j + 1);
      } else {
        TrimBinKeeps(pre, b, s, n - 1, time, e, j);
      }
    }
  }

  lemma TrimNothing(pre: Pool, b: nat, s: seq<nat>, time: nat, e: Env, j: nat)
    requires b < |pre.bins|
    ensures TrimBin(pre, b, s, 0, time, e, j) == pre
  {
  }

  lemma TrimBinStep(pre: Pool, b: nat, s: seq<nat>, n: nat, time: nat, e: Env, j: nat)
    requires b < |pre.bins| && 0 < n <= |s| && s[n - 1] in pre.bins[b].own
    ensures |ReleaseChunk(pre, b, s[n - 1], Tick(e, j), e.maxAge).bins| == |pre.bins|
    ensures TrimBin(pre, b, s, n, time, e, j) ==
      if Aged(pre.bins[b].own[s[n - 1]].last, time, e.maxAge)
      then TrimBin(ReleaseChunk(pre, b, s[n - 1], Tick(e, j), e.maxAge), b, s, n - 1, time, e, j + 1)
      else TrimBin(pre, b, s, n - 1, time, e, j)
  {
    hide DropOwner, SuperFree;
  }

  lemma ReleaseChunkList(pre: Pool, b: nat, c: nat, tick: nat, maxAge: nat)
    requires b < |pre.bins|
    ensures |ReleaseChunk(pre, b, c, tick, maxAge).bins| == |pre.bins|
    ensures forall x :: x in pre.bins[b].freeL && x != c ==> x in ReleaseChunk(pre, b, c, tick, maxAge).bins[b].freeL
  {
    hide SuperFree;
  }

  lemma FreeListOwned(pre: Pool, b: nat)
    requires PoolInv(pre) && b < BINS
    ensures |pre.bins| == |pre.counter| == BINS
    ensures NoDup(pre.bins[b].freeL) && forall k :: k in pre.bins[b].freeL ==> k in pre.bins[b].own
  {
    hide LevelInv, Conserved, Supers, Blocks, BlockSize;
    BinInvariant(pre, b);
    FreeListDistinct(pre.bins[b], Blocks(b), Blocks(b) / 4);
  }

  lemma GiveBlockKeeps(pre: Pool, b: nat, c: nat, i: nat, tick: nat, counter: seq<nat>)
    requires PoolInv(pre) && b < BINS && c in pre.owner && pre.owner[c] == b && Live(pre.bins[b], c, i, Blocks(b))
    requires |counter| == BINS
    ensures c in pre.bins[b].own
    ensures var upd := Give(pre.bins[b], c, i, Blocks(b), |pre.bins[b].own[c].free| + 1 > Blocks(b) / 4, tick);
      var post := pre.(bins := pre.bins[b := upd], counter := counter);
      PoolInv(post) && Removes(pre, post, BlockAt(b, c, i))
  {
    hide Blocks, BlockSize, LevelInv, Give, Conserved, Supers, Live;
    var lev := pre.bins[b];
    BinInvariant(pre, b);
    LiveOwned(lev, c, i, Blocks(b));
    var promote := |lev.own[c].free| + 1 > Blocks(b) / 4;
    GiveKeeps(lev, c, i, Blocks(b), Blocks(b) / 4, promote, tick);
    GiveLive(lev, c, i, Blocks(b), promote, tick);
    var upd := Give(lev, c, i, Blocks(b), promote, tick);
    var post := pre.(bins := pre.bins[b := upd], counter := counter);
    forall x | 0 <= x < BINS ensures LevelInv(post.bins[x], Blocks(x), Blocks(x) / 4) {}
    assert forall x :: x in upd.own <==> x in lev.own;
    assert BinsOk(post);
    OwnedIsAligned(pre, c);
    BlockDecode(b, c, i);
    LiveUpdate(pre, post, b, c, i);
    DirectNotLive(pre, c);
  }

  lemma SmallFreeKeeps(pre: Pool, b: nat, c: nat, i: nat, e: Env)
    requires PoolInv(pre) && b < BINS && c in pre.owner && pre.owner[c] == b && Live(pre.bins[b], c, i, Blocks(b))
    ensures |pre.bins| == |pre.counter| == BINS && c in pre.bins[b].own
    ensures PoolInv(SmallFree(pre, b, c, i, e))
    ensures Removes(pre, SmallFree(pre, b, c, i, e), BlockAt(b, c, i))
    ensures SmallFree(pre, b, c, i, e).direct == pre.direct
  {
    hide PoolInv, IsLive, Live, Blocks, BlockSize, Give, BlockAt;
    FreeListOwned(pre, b);
    GiveBlockKeeps(pre, b, c, i, Tick(e, 0), pre.counter);
    var upd := Give(pre.bins[b], c, i, Blocks(b), |pre.bins[b].own[c].free| + 1 > Blocks(b) / 4, Tick(e, 0));
    if pre.counter[b] + 1 >= e.checkFreq {
      var post := pre.(bins := pre.bins[b := upd], counter := pre.counter[b := 0]);
      GiveBlockKeeps(pre, b, c, i, Tick(e, 0), pre.counter[b := 0]);
      FreeListOwned(post, b);
      TrimBinKeeps(post, b, upd.freeL, |upd.freeL|, Tick(e, 0), e, 1);
    } else {
      GiveBlockKeeps(pre, b, c, i, Tick(e, 0), pre.counter[b := pre.counter[b] + 1]);
    }
  }

  // --- The entry points

  lemma RegionSizeIsPages(n: nat)
    requires RegionSize(n) != 0
    ensures RegionSize(n) >= PAGE
  {
  }

  lemma DirectAllocKeeps(pre: Pool, d: nat, size: nat)
    requires PoolInv(pre) && FreshFor(pre, d, size) && size >= PAGE
    ensures d !in pre.direct && d !in pre.owner
    ensures var post := pre.(direct := pre.direct[d := size]);
      PoolInv(post) && Adds(pre, post, d + HEADER) && HeaderOf(d + HEADER) == d
  {
    hide Blocks, BlockSize, LevelInv, Conserved, Live, Regions, LiveSmall;
    var post := pre.(direct := pre.direct[d := size]);
    DirectRegions(pre, d, size);
    assert BinsOk(post);
    DirectNotOwned(post, d);
    HeaderOfOffset(d, HEADER);
    assert LiveDirect(post, d + HEADER);
    SameSmall(pre, post);
    NoHeaderNoBlock(pre, d + HEADER);
  }

  lemma NoHeaderNoBlock(pre: Pool, p: nat)
    requires HeaderOf(p) !in pre.owner
    ensures !LiveSmall(pre, p)
  {
  }

  lemma DirectRegions(pre: Pool, d: nat, size: nat)
    requires Regions(pre) && FreshFor(pre, d, size) && size >= PAGE
    ensures d !in pre.direct && Regions(pre.(direct := pre.direct[d := size]))
  {
    assert d !in pre.direct || Apart(d, size, d, pre.direct[d]);
  }

  lemma SameSmall(pre: Pool, post: Pool)
    requires post.bins == pre.bins && post.owner == pre.owner
    ensures forall q: nat :: LiveSmall(post, q) <==> LiveSmall(pre, q)
  {
    hide Live, Blocks, BlockSize;
    forall q: nat ensures LiveSmall(post, q) <==> LiveSmall(pre, q) {}
  }

  /** Malloc fails without effect or hands out one pointer that was not live. The header that
      the pointer's high bits select names the bin that served it, or a region of its own. */
  lemma MallocKeeps(pre: Pool, n: nat, e: Env)
    requires PoolInv(pre) && EnvOk(pre, n, e)
    ensures var (post, r) := Malloc(pre, n, e);
      && PoolInv(post)
      && (r.None? ==> post == pre)
      && (r.Some? ==> Adds(pre, post, r.value))
      && (r.Some? && n <= 16384 ==>
            HeaderOf(r.value) in post.owner && post.owner[HeaderOf(r.value)] == IndexFromSize(n))
      && (r.Some? && n > 16384 ==>
            && HeaderOf(r.value) in post.direct && post.direct[HeaderOf(r.value)] == RegionSize(n)
            && HeaderOf(r.value) !in post.owner)
  {
    hide Blocks, BlockSize, LevelInv, Conserved, Live, SmallAlloc, RegionSize, IndexFromSize, Supers;
    IndexFromSizeIsBestFit(n);
    var b := IndexFromSize(n);
    if b < BINS {
      SmallAllocKeeps(pre, b, e.base);
    } else if e.base.Some? && RegionSize(n) != 0 {
      RegionSizeIsPages(n);
      DirectAllocKeeps(pre, e.base.value, RegionSize(n));
    }
  }

  lemma DirectFreeKeeps(pre: Pool, d: nat)
    requires PoolInv(pre) && d in pre.direct
    ensures var post := pre.(direct := pre.direct - {d}); PoolInv(post) && Removes(pre, post, d + HEADER)
  {
    hide Blocks, BlockSize, LevelInv, Conserved, Live;
    var post := pre.(direct := pre.direct - {d});
    assert BinsOk(post);
    assert Regions(post);
    DirectNotOwned(pre, d);
    HeaderOfOffset(d, HEADER);
    assert LiveDirect(pre, d + HEADER);
    forall q: nat ensures LiveSmall(post, q) <==> LiveSmall(pre, q) {}
  }

  /** Free of a live pointer finds the right owner through the masked header and removes that
      pointer, and no other, from the live ones. */
  lemma FreeKeeps(pre: Pool, p: nat, e: Env)
    requires PoolInv(pre) && IsLive(pre, p)
    ensures PoolInv(Free(pre, p, e)) && Removes(pre, Free(pre, p, e), p)
  {
    hide Blocks, BlockSize, LevelInv, Conserved, Live, SmallFree, Supers, BlockAt;
    var c := HeaderOf(p);
    LiveExtent(pre, p);
    if LiveSmall(pre, p) {
      var b, h, i := LiveSmallIsBlock(pre, p);
      SmallFreeKeeps(pre, b, h, i, e);
    } else {
      DirectNotOwned(pre, c);
      DirectFreeKeeps(pre, c);
    }
  }

  /** Two live blocks never overlap: each lies past the header of its chunk or region and ends
      before the end, and the two intervals are disjoint. */
  lemma LiveDisjoint(pre: Pool, p: nat, q: nat)
    requires PoolInv(pre) && IsLive(pre, p) && IsLive(pre, q) && p != q
    ensures Apart(p, GetSize(pre, p), q, GetSize(pre, q))
  {
    hide PoolInv, IsLive, GetSize, HeaderOf, Extent;
    LiveExtent(pre, p);
    LiveExtent(pre, q);
    if HeaderOf(p) == HeaderOf(q) {
      SameChunkDisjoint(pre, p, q);
    } else {
      ExtentsApart(pre, HeaderOf(p), HeaderOf(q));
    }
  }

  lemma SameChunkDisjoint(pre: Pool, p: nat, q: nat)
    requires PoolInv(pre) && IsLive(pre, p) && IsLive(pre, q) && p != q && HeaderOf(p) == HeaderOf(q)
    ensures Apart(p, GetSize(pre, p), q, GetSize(pre, q))
  {
    hide PoolInv, Live, Blocks, BlockSize;
    LiveExtent(pre, p);
    if HeaderOf(p) in pre.direct {
      DirectNotOwned(pre, HeaderOf(p));
    } else {
      LiveExtent(pre, q);
      var b, c, i := LiveSmallIsBlock(pre, p);
      var x, h, j := LiveSmallIsBlock(pre, q);
      StridesApart(c + HEADER, i, j, BlockSize(b));
    }
  }

  lemma StridesApart(start: nat, i: nat, j: nat, d: nat)
    requires i != j
    ensures Apart(start + i * d, d, start + j * d, d)
  {
    if i < j { BlockInside(i, j, d); } else { BlockInside(j, i, d); }
  }

  lemma AlignedApart(c: nat, d: nat)
    requires c % CHUNK == 0 && d % CHUNK == 0 && c != d
    ensures Apart(c, CHUNK, d, CHUNK)
  {
  }

  /** The memory a header governs: its chunk, or the region of its direct allocation. */
  ghost function Extent(pre: Pool, c: nat): nat {
    if c in pre.owner then CHUNK else if c in pre.direct then pre.direct[c] else 0
  }

  /** A live block lies past the header of its chunk or region, and inside it. */
  lemma LiveExtent(pre: Pool, p: nat)
    requires PoolInv(pre) && IsLive(pre, p)
    ensures HeaderOf(p) in pre.owner || HeaderOf(p) in pre.direct
    ensures p != 0 && HeaderOf(p) + HEADER <= p
    ensures p + GetSize(pre, p) <= HeaderOf(p) + Extent(pre, HeaderOf(p))
  {
    if LiveSmall(pre, p) {
      var b, c, i := LiveSmallIsBlock(pre, p);
    } else {
      DirectNotOwned(pre, HeaderOf(p));
    }
  }

  lemma ExtentsApart(pre: Pool, c: nat, d: nat)
    requires PoolInv(pre) && c != d
    requires c in pre.owner || c in pre.direct
    requires d in pre.owner || d in pre.direct
    ensures Apart(c, Extent(pre, c), d, Extent(pre, d))
  {
    hide PoolInv;
    if c in pre.owner && d in pre.owner {
      OwnedIsAligned(pre, c);
      OwnedIsAligned(pre, d);
      AlignedApart(c, d);
    } else if c in pre.owner {
      ChunkAndRegionApart(pre, c, d);
    } else if d in pre.owner {
      ChunkAndRegionApart(pre, d, c);
    } else {
      RegionsApart(pre, c, d);
    }
  }

  lemma RegionsApart(pre: Pool, c: nat, d: nat)
    requires PoolInv(pre) && c != d && c in pre.direct && d in pre.direct
    ensures Apart(c, pre.direct[c], d, pre.direct[d])
  {
    hide Blocks, BlockSize, LevelInv, BinsOk, Conserved;
  }

  lemma ChunkAndRegionApart(pre: Pool, c: nat, d: nat)
    requires PoolInv(pre) && c in pre.owner && d in pre.direct
    ensures Apart(c, CHUNK, d, pre.direct[d])
  {
    hide Blocks, BlockSize, LevelInv, BinsOk, Live;
    var k, i: nat :| IsSlot(pre.sup, k, i, c);
    assert Apart(d, pre.direct[d], k, SUPERCHUNK);
  }
}
