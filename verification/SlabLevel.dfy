/** One level of the two-level slab allocator.

A level owns containers, each identified by the address of its memory and cut into `total`
blocks numbered from 0. Both the size-class bins (containers are 64 KiB chunks) and the
superchunk manager (containers are 2 MiB superchunks) are levels: each keeps its containers
on a free, an in-use and a full list, and threads a LIFO free list through every container.
*/
module SlabLevel {
  import opened Sets

  // --- Sequences without repetition, the contents of the doubly linked lists

  ghost predicate NoDup(s: seq<nat>) {
    forall i, j :: 0 <= i < j < |s| ==> s[i] != s[j]
  }

  /** The contents of a list after DlListRemove of the node x. */
  function Without(s: seq<nat>, x: nat): (r: seq<nat>)
    ensures forall y :: y in r <==> y in s && y != x
    ensures NoDup(s) ==> NoDup(r)
    ensures x !in s ==> r == s
  {
    if s == [] then []
    else if s[0] == x then
      assert forall y :: y in s <==> y == s[0] || y in s[1..];
      Without(s[1..], x)
    else
      assert forall y :: y in s <==> y == s[0] || y in s[1..];
      assert NoDup(s) ==> NoDup(s[1..]) && s[0] !in s[1..];
      var r := Without(s[1..], x);
      assert NoDup(r) && s[0] !in r ==> NoDup([s[0]] + r);
      [s[0]] + r
  }

  function Count(n: nat): (r: seq<nat>)
    ensures |r| == n && forall i :: 0 <= i < n ==> r[i] == i
  {
    seq(n, i requires 0 <= i < n => i)
  }

  lemma {:induction false} CountUp(n: nat) returns (r: set<nat>)
    ensures forall i: nat :: i in r <==> i < n
    ensures |r| == n
  {
    if n == 0 {
      r := {};
    } else {
      var q := CountUp(n - 1);
      r := q + {n - 1};
    }
  }

  lemma {:induction false} SetOf(s: seq<nat>) returns (r: set<nat>)
    requires NoDup(s)
    ensures forall x :: x in r <==> x in s
    ensures |r| == |s|
  {
    if s == [] {
      r := {};
    } else {
      var q := SetOf(s[1..]);
      r := q + {s[0]};
      assert s[0] !in s[1..];
      assert forall x :: x in s <==> x == s[0] || x in s[1..];
    }
  }

  /** A free list without repetition is never longer than the container, and it is as long
      only when every block is free. */
  lemma Pigeonhole(s: seq<nat>, n: nat)
    requires NoDup(s) && forall x :: x in s ==> x < n
    ensures |s| <= n
    ensures |s| == n <==> forall i: nat :: i < n ==> i in s
  {
    var a := SetOf(s);
    var b := CountUp(n);
    assert a <= b;
    SubsetSize(a, b);
  }

  // --- The level

  datatype Owner = Owner(free: seq<nat>, last: nat)

  datatype Level = Level(freeL: seq<nat>, inUse: seq<nat>, full: seq<nat>, own: map<nat, Owner>)

  datatype Dest = ToFree | ToInUse | ToFull

  const EMPTY := Level([], [], [], map[])

  /** Every container is on exactly one of the three lists. */
  ghost predicate Shape(lev: Level) {
    && NoDup(lev.freeL) && NoDup(lev.inUse) && NoDup(lev.full)
    && (forall k :: k in lev.own <==> k in lev.freeL || k in lev.inUse || k in lev.full)
    && (forall k :: k in lev.freeL ==> k !in lev.inUse && k !in lev.full)
    && (forall k :: k in lev.inUse ==> k !in lev.full)
  }

  ghost predicate OwnerOk(o: Owner, total: nat) {
    NoDup(o.free) && forall i :: i in o.free ==> i < total
  }

  /** The list a container is on tells how many of its blocks are free. */
  ghost predicate Placed(lev: Level, k: nat, total: nat, cap: nat)
    requires k in lev.own
  {
    && (k in lev.freeL ==> |lev.own[k].free| == total)
    && (k in lev.inUse ==> 1 <= |lev.own[k].free| < total)
    && (k in lev.full ==> |lev.own[k].free| <= cap)
  }

  /** The invariant of a level: `cap` is the largest number of free blocks a container may
      have while it stays on the full list. */
  ghost predicate LevelInv(lev: Level, total: nat, cap: nat) {
    && Shape(lev)
    && cap < total
    && (forall k :: k in lev.own ==> OwnerOk(lev.own[k], total))
    && (forall k :: k in lev.own ==> Placed(lev, k, total, cap))
  }

  /** Block i of container k is handed out. */
  ghost predicate Live(lev: Level, k: nat, i: nat, total: nat) {
    k in lev.own && i < total && i !in lev.own[k].free
  }

  // --- List transfers

  /** DlListRemove from whichever list k is on, then DlListInsertHead. */
  function Move(lev: Level, k: nat, d: Dest): Level {
    var f, u, g := Without(lev.freeL, k), Without(lev.inUse, k), Without(lev.full, k);
    match d
    case ToFree => Level([k] + f, u, g, lev.own)
    case ToInUse => Level(f, [k] + u, g, lev.own)
    case ToFull => Level(f, u, [k] + g, lev.own)
  }

  ghost predicate Suits(n: nat, d: Dest, total: nat, cap: nat) {
    match d
    case ToFree => n == total
    case ToInUse => 1 <= n < total
    case ToFull => n <= cap
  }

  lemma MoveShape(lev: Level, k: nat, d: Dest)
    requires Shape(lev) && k in lev.own
    ensures Shape(Move(lev, k, d))
  {
    var upd := Move(lev, k, d);
    assert forall x :: x in upd.own <==> x in lev.freeL || x in lev.inUse || x in lev.full;
  }

  lemma MoveKeeps(lev: Level, k: nat, d: Dest, total: nat, cap: nat)
    requires Shape(lev) && k in lev.own && cap < total
    requires forall x :: x in lev.own ==> OwnerOk(lev.own[x], total)
    requires forall x :: x in lev.own && x != k ==> Placed(lev, x, total, cap)
    requires Suits(|lev.own[k].free|, d, total, cap)
    ensures LevelInv(Move(lev, k, d), total, cap)
  {
    MoveShape(lev, k, d);
    var upd := Move(lev, k, d);
    forall x | x in upd.own ensures Placed(upd, x, total, cap) {
    }
  }

  // --- Taking a block from the head of the in-use list

  datatype Taken = Taken(level: Level, owner: nat, block: nat)

  /** The state in which a block can be taken: only the head of the in-use list, which may
      have just arrived with all its blocks free, can break the classification. */
  ghost predicate Ready(lev: Level, total: nat, cap: nat) {
    && Shape(lev) && cap < total
    && lev.inUse != []
    && (forall k :: k in lev.own ==> OwnerOk(lev.own[k], total))
    && (forall k :: k in lev.own && k != lev.inUse[0] ==> Placed(lev, k, total, cap))
    && lev.own[lev.inUse[0]].free != []
  }

  ghost predicate CanTake(lev: Level) {
    lev.inUse != [] && lev.inUse[0] in lev.own && lev.own[lev.inUse[0]].free != []
  }

  function Take(lev: Level): Taken
    requires CanTake(lev)
  {
    var k := lev.inUse[0];
    var o := lev.own[k];
    var upd := lev.(own := lev.own[k := o.(free := o.free[1..])]);
    Taken(if |o.free| == 1 then Move(upd, k, ToFull) else upd, k, o.free[0])
  }

  lemma TakeKeeps(lev: Level, total: nat, cap: nat)
    requires Ready(lev, total, cap)
    ensures CanTake(lev)
    ensures var t := Take(lev);
      && LevelInv(t.level, total, cap)
      && t.level.own.Keys == lev.own.Keys
      && !Live(lev, t.owner, t.block, total) && Live(t.level, t.owner, t.block, total)
      && forall k, i: nat :: k != t.owner || i != t.block ==>
           (Live(t.level, k, i, total) <==> Live(lev, k, i, total))
  {
    hide Move;
    Pigeonhole(lev.own[lev.inUse[0]].free, total);
    TakeInv(lev, total, cap);
    TakeTouchesOne(lev, total);
  }

  lemma TakeInv(lev: Level, total: nat, cap: nat)
    requires Ready(lev, total, cap) && |lev.own[lev.inUse[0]].free| <= total
    ensures CanTake(lev) && LevelInv(Take(lev).level, total, cap)
  {
    hide Move;
    var k := lev.inUse[0];
    var o := lev.own[k];
    var p := o.(free := o.free[1..]);
    var upd := lev.(own := lev.own[k := p]);
    assert NoDup(p.free) && forall i :: i in p.free ==> i in o.free;
    if |o.free| == 1 {
      MoveKeeps(upd, k, ToFull, total, cap);
    } else {
      forall x | x in upd.own ensures Placed(upd, x, total, cap) {
        if x != k { assert Placed(lev, x, total, cap); }
      }
    }
  }

  lemma TakeTouchesOne(lev: Level, total: nat)
    requires CanTake(lev) && OwnerOk(lev.own[lev.inUse[0]], total)
    ensures var t := Take(lev);
      && t.level.own.Keys == lev.own.Keys
      && !Live(lev, t.owner, t.block, total) && Live(t.level, t.owner, t.block, total)
      && forall k, i: nat :: k != t.owner || i != t.block ==>
           (Live(t.level, k, i, total) <==> Live(lev, k, i, total))
  {
    var o := lev.own[lev.inUse[0]];
    assert forall x :: x in o.free <==> x == o.free[0] || x in o.free[1..];
    assert o.free[0] !in o.free[1..];
  }

  /** A new container with all its blocks free, inserted at the head of the in-use list. */
  function AddOwner(lev: Level, k: nat, total: nat): Level {
    lev.(inUse := [k] + lev.inUse, own := lev.own[k := Owner(Count(total), 0)])
  }

  lemma AddReady(lev: Level, k: nat, total: nat, cap: nat)
    requires LevelInv(lev, total, cap) && k !in lev.own
    ensures Ready(AddOwner(lev, k, total), total, cap)
    ensures forall x, i: nat :: Live(AddOwner(lev, k, total), x, i, total) <==> Live(lev, x, i, total)
  {
    var upd := AddOwner(lev, k, total);
    forall i: nat | i < total ensures i in upd.own[k].free {
      assert Count(total)[i] == i;
    }
    forall x | x in upd.own && x != k ensures Placed(upd, x, total, cap) {
      assert Placed(lev, x, total, cap);
    }
  }

  lemma RecycleReady(lev: Level, total: nat, cap: nat)
    requires LevelInv(lev, total, cap) && lev.freeL != []
    ensures Ready(Move(lev, lev.freeL[0], ToInUse), total, cap)
  {
    var k := lev.freeL[0];
    MoveShape(lev, k, ToInUse);
    var upd := Move(lev, k, ToInUse);
    assert Placed(lev, k, total, cap);
    forall x | x in upd.own && x != k ensures Placed(upd, x, total, cap) {
      assert Placed(lev, x, total, cap);
    }
  }

  lemma InUseReady(lev: Level, total: nat, cap: nat)
    requires LevelInv(lev, total, cap) && lev.inUse != []
    ensures Ready(lev, total, cap)
  {
    assert Placed(lev, lev.inUse[0], total, cap);
  }

  // --- Giving a block back

  /** The container after the block went to the head of its free list. */
  function Push(lev: Level, k: nat, i: nat): Level
    requires k in lev.own
  {
    lev.(own := lev.own[k := lev.own[k].(free := [i] + lev.own[k].free)])
  }

  /** The block goes to the head of its container's free list; a container that became
      completely free moves to the free list, and one for which `promote` holds moves to the
      head of the in-use list. Last of all the time of use is set. */
  function Give(lev: Level, k: nat, i: nat, total: nat, promote: bool, tick: nat): Level
    requires k in lev.own
  {
    var upd := Push(lev, k, i);
    var mov := if |upd.own[k].free| >= total then Move(upd, k, ToFree)
             else if promote then Move(upd, k, ToInUse)
             else upd;
    mov.(own := mov.own[k := mov.own[k].(last := tick)])
  }

  lemma SetLast(lev: Level, k: nat, tick: nat, total: nat, cap: nat)
    requires LevelInv(lev, total, cap) && k in lev.own
    ensures LevelInv(lev.(own := lev.own[k := lev.own[k].(last := tick)]), total, cap)
  {
    var upd := lev.(own := lev.own[k := lev.own[k].(last := tick)]);
    forall x | x in upd.own ensures Placed(upd, x, total, cap) {
      assert Placed(lev, x, total, cap);
    }
  }

  lemma PushKeeps(lev: Level, k: nat, i: nat, total: nat, cap: nat)
    requires LevelInv(lev, total, cap) && Live(lev, k, i, total)
    ensures var upd := Push(lev, k, i);
      && Shape(upd) && |upd.own[k].free| == |lev.own[k].free| + 1 <= total
      && (forall x :: x in upd.own ==> OwnerOk(upd.own[x], total))
      && (forall x :: x in upd.own && x != k ==> Placed(upd, x, total, cap))
      && (|upd.own[k].free| < total && (k in lev.full ==> |upd.own[k].free| <= cap) ==> Placed(upd, k, total, cap))
  {
    var upd := Push(lev, k, i);
    Pigeonhole(upd.own[k].free, total);
    assert Placed(lev, k, total, cap);
    forall x | x in upd.own && x != k ensures Placed(upd, x, total, cap) {
      assert Placed(lev, x, total, cap);
    }
  }

  /** `promote` must send a container with more than `cap` free blocks off the full list. */
  lemma GiveKeeps(lev: Level, k: nat, i: nat, total: nat, cap: nat, promote: bool, tick: nat)
    requires LevelInv(lev, total, cap) && Live(lev, k, i, total)
    requires k in lev.full && |lev.own[k].free| + 1 > cap ==> promote
    ensures LevelInv(Give(lev, k, i, total, promote, tick), total, cap)
  {
    var upd := Push(lev, k, i);
    PushKeeps(lev, k, i, total, cap);
    if |upd.own[k].free| >= total {
      MoveKeeps(upd, k, ToFree, total, cap);
      SetLast(Move(upd, k, ToFree), k, tick, total, cap);
    } else if promote {
      MoveKeeps(upd, k, ToInUse, total, cap);
      SetLast(Move(upd, k, ToInUse), k, tick, total, cap);
    } else {
      SetLast(upd, k, tick, total, cap);
    }
  }

  lemma GiveLive(lev: Level, k: nat, i: nat, total: nat, promote: bool, tick: nat)
    requires Live(lev, k, i, total)
    ensures var upd := Give(lev, k, i, total, promote, tick);
      && upd.own.Keys == lev.own.Keys
      && upd.own[k] == Owner([i] + lev.own[k].free, tick)
      && (forall x :: x in lev.own && x != k ==> upd.own[x] == lev.own[x])
      && !Live(upd, k, i, total)
      && forall x, j: nat :: x != k || j != i ==> (Live(upd, x, j, total) <==> Live(lev, x, j, total))
  {
    var o := [i] + lev.own[k].free;
    assert forall j: nat :: j in o <==> j == i || j in lev.own[k].free;
  }

  // --- Trimming

  /** The age test of both Trim loops: a time that went backwards forces the release. */
  predicate Aged(last: nat, time: nat, maxAge: nat) {
    (if time >= last then time - last else maxAge) >= maxAge
  }

  function DropOwner(lev: Level, k: nat): Level {
    lev.(freeL := Without(lev.freeL, k), own := lev.own - {k})
  }

  lemma DropKeeps(lev: Level, k: nat, total: nat, cap: nat)
    requires LevelInv(lev, total, cap) && k in lev.freeL
    ensures LevelInv(DropOwner(lev, k), total, cap)
    ensures forall i: nat :: !Live(lev, k, i, total)
    ensures forall x, i: nat :: Live(DropOwner(lev, k), x, i, total) <==> Live(lev, x, i, total)
  {
    var upd := DropOwner(lev, k);
    assert Placed(lev, k, total, cap);
    Pigeonhole(lev.own[k].free, total);
    forall x | x in upd.own ensures Placed(upd, x, total, cap) {
      assert Placed(lev, x, total, cap);
    }
  }

  /** The loop of Trim over the containers s[..n] of the free list, from the tail. */
  function Trim(lev: Level, s: seq<nat>, n: nat, time: nat, maxAge: nat): Level
    requires n <= |s|
    decreases n
  {
    if n == 0 then lev
    else
      var k := s[n - 1];
      var upd := if k in lev.own && Aged(lev.own[k].last, time, maxAge) then DropOwner(lev, k) else lev;
      Trim(upd, s, n - 1, time, maxAge)
  }

  /** Trim only ever removes aged containers of the free list, none of which holds a live
      block, and it removes all of them. */
  lemma {:induction false} TrimKeeps(lev: Level, s: seq<nat>, n: nat, time: nat, maxAge: nat, total: nat, cap: nat)
    requires LevelInv(lev, total, cap) && n <= |s| && NoDup(s)
    requires forall j :: 0 <= j < n ==> s[j] in lev.freeL
    ensures LevelInv(Trim(lev, s, n, time, maxAge), total, cap)
    ensures var upd := Trim(lev, s, n, time, maxAge);
      && upd.inUse == lev.inUse && upd.full == lev.full
      && (forall k :: k in upd.own ==> k in lev.own && upd.own[k] == lev.own[k])
      && (forall k :: k in lev.own ==>
           (k !in upd.own <==> k in s[..n] && Aged(lev.own[k].last, time, maxAge)))
      && forall k, i: nat :: Live(upd, k, i, total) <==> Live(lev, k, i, total)
    decreases n
  {
    if n == 0 {
    } else {
      var k := s[n - 1];
      assert forall x :: x in s[..n] <==> x == k || x in s[..n - 1];
      assert k !in s[..n - 1];
      if Aged(lev.own[k].last, time, maxAge) {
        DropKeeps(lev, k, total, cap);
        TrimKeeps(DropOwner(lev, k), s, n - 1, time, maxAge, total, cap);
      } else {
        TrimKeeps(lev, s, n - 1, time, maxAge, total, cap);
      }
    }
  }

  lemma TrimStep(lev: Level, s: seq<nat>, n: nat, time: nat, maxAge: nat)
    requires n <= |s| && (n > 0 ==> s[n - 1] in lev.own)
    ensures n == 0 ==> Trim(lev, s, n, time, maxAge) == lev
    ensures n > 0 ==>
      Trim(lev, s, n, time, maxAge) == (
        if Aged(lev.own[s[n - 1]].last, time, maxAge) then Trim(DropOwner(lev, s[n - 1]), s, n - 1, time, maxAge)
        else Trim(lev, s, n - 1, time, maxAge))
  {
  }
}
