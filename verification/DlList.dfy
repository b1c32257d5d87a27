/** The circular doubly linked lists of the pool, at the level of the node pointers.

A list is a ring of nodes that starts with its sentinel. DlListRemove does not know which list
its node is on; the lemmas here show that it takes the node out of just that list.
*/
module DlList {
  import opened SlabLevel

  class Node {
    var lpNext: Node
    var lpPrev: Node

    /** A node that is on no list points to itself. */
    constructor ()
      ensures lpNext == this && lpPrev == this
    {
      lpNext := this;
      lpPrev := this;
    }
  }

  ghost predicate Distinct(r: seq<Node>) {
    forall i, j :: 0 <= i < j < |r| ==> r[i] != r[j]
  }

  /** The node after position i, around the ring. */
  ghost function After(r: seq<Node>, i: nat): Node
    requires i < |r|
  {
    if i + 1 < |r| then r[i + 1] else r[0]
  }

  /** The nodes r are linked in this order, forwards and backwards, into a ring. */
  ghost predicate Ring(r: seq<Node>)
    reads r
  {
    && r != []
    && Distinct(r)
    && forall i :: 0 <= i < |r| ==> r[i].lpNext == After(r, i) && After(r, i).lpPrev == r[i]
  }

  method DlListInsertHead(list: Node, item: Node, ghost r: seq<Node>)
    requires Ring(r) && r[0] == list && item !in r
    requires item.lpNext == item && item.lpPrev == item
    modifies list, list.lpNext, item
    ensures Ring([list, item] + r[1..])
  {
    assert list.lpNext == After(r, 0);
    item.lpNext := list.lpNext;
    item.lpPrev := list;
    list.lpNext.lpPrev := item;
    list.lpNext := item;
    ghost var s := [list, item] + r[1..];
    forall i | 0 <= i < |s| ensures s[i].lpNext == After(s, i) && After(s, i).lpPrev == s[i] {
      if i > 1 {
        assert s[i] == r[i - 1] && After(s, i) == After(r, i - 1);
        assert old(r[i - 1].lpNext) == After(r, i - 1) && old(After(r, i - 1).lpPrev) == r[i - 1];
      }
    }
  }

  method DlListInsertTail(list: Node, item: Node, ghost r: seq<Node>)
    requires Ring(r) && r[0] == list && item !in r
    requires item.lpNext == item && item.lpPrev == item
    modifies list, list.lpPrev, item
    ensures Ring(r + [item])
  {
    ghost var n := |r|;
    assert After(r, n - 1) == list;
    item.lpNext := list;
    item.lpPrev := list.lpPrev;
    list.lpPrev.lpNext := item;
    list.lpPrev := item;
    ghost var s := r + [item];
    forall i | 0 <= i < |s| ensures s[i].lpNext == After(s, i) && After(s, i).lpPrev == s[i] {
      if i < n - 1 {
        assert After(s, i) == After(r, i) == r[i + 1];
        assert old(r[i].lpNext) == r[i + 1] && old(r[i + 1].lpPrev) == r[i];
      }
    }
  }

  /** The node at position k leaves its ring and becomes a ring of its own. */
  method DlListRemove(item: Node, ghost r: seq<Node>, ghost k: nat)
    requires Ring(r) && 0 < k < |r| && r[k] == item
    modifies item, item.lpNext, item.lpPrev
    ensures Ring(r[..k] + r[k + 1..])
    ensures item.lpNext == item && item.lpPrev == item
  {
    assert After(r, k - 1) == r[k];
    assert item.lpPrev == r[k - 1] && item.lpNext == After(r, k);
    item.lpPrev.lpNext := item.lpNext;
    item.lpNext.lpPrev := item.lpPrev;
    item.lpNext, item.lpPrev := item, item;
    ghost var s := r[..k] + r[k + 1..];
    forall i | 0 <= i < |s| ensures s[i].lpNext == After(s, i) && After(s, i).lpPrev == s[i] {
      if i < k - 1 {
        assert s[i] == r[i] && After(s, i) == After(r, i) == r[i + 1];
        assert old(r[i].lpNext) == r[i + 1] && old(r[i + 1].lpPrev) == r[i];
      } else if i >= k {
        assert s[i] == r[i + 1] && After(s, i) == After(r, i + 1);
        assert old(r[i + 1].lpNext) == After(r, i + 1) && old(After(r, i + 1).lpPrev) == r[i + 1];
      }
    }
  }

  /** What Alloc and Free do with a container: off whichever list it is on, to the head of
      another. Both lists end up right although the removal names neither. */
  method Transfer(item: Node, list: Node, ghost r: seq<Node>, ghost k: nat, ghost s: seq<Node>)
    requires Ring(r) && 0 < k < |r| && r[k] == item
    requires Ring(s) && s[0] == list && forall x :: x in r ==> x !in s
    modifies item, item.lpNext, item.lpPrev, list, list.lpNext
    ensures Ring(r[..k] + r[k + 1..])
    ensures Ring([list, item] + s[1..])
  {
    assert After(r, k - 1) == r[k];
    assert item.lpPrev == r[k - 1] && item.lpNext == After(r, k) && After(r, k) in r;
    assert list.lpNext == After(s, 0) && After(s, 0) in s;
    DlListRemove(item, r, k);
    DlListInsertHead(list, item, s);
  }

  /** The contents left by DlListRemove are those the pool's specification computes. */
  lemma {:induction false} RemovalIsWithout(s: seq<nat>, k: nat)
    requires NoDup(s) && k < |s|
    ensures Without(s, s[k]) == s[..k] + s[k + 1..]
  {
    if k == 0 {
      assert s[0] !in s[1..];
      assert s[..0] + s[1..] == s[1..];
    } else {
      RemovalIsWithout(s[1..], k - 1);
      assert s[..k] + s[k + 1..] == [s[0]] + (s[1..][..k - 1] + s[1..][k..]);
    }
  }
}
