/** The circular doubly linked list with a sentinel, and the container built on it. */
module RingList {
  import opened Wrappers

  /** A node's links; a data node carries an element and the sentinel none. */
  class ListBase<T> {
    var next: ListBase<T>
    var prev: ListBase<T>
    const ele: Option<T>

    constructor (ele: Option<T>)
      ensures next == this && prev == this && this.ele == ele
    {
      next := this;
      prev := this;
      this.ele := ele;
    }

    /** Links `e` in just before this node. `ring` is the circle this node is part of and `k` where
        `e` goes in it: this node is at `k`, or is the first one and `e` goes last. */
    method Insert(e: ListBase<T>, ghost ring: seq<ListBase<T>>, ghost k: nat)
      requires Ring(ring) && e !in ring && 1 <= k <= |ring| && this == ring[Wrap(k, |ring|)]
      modifies this`prev, prev`next, e`next, e`prev
      ensures Ring(ring[..k] + [e] + ring[k..])
    {
      ghost var after := ring[..k] + [e] + ring[k..];
      assert LinkedAt(ring, Wrap(k, |ring|)) && LinkedAt(ring, k - 1);
      assert prev == ring[k - 1];
      e.next := this;
      e.prev := prev;
      prev.next := e;
      prev := e;
      forall i | 0 <= i < |after| ensures LinkedAt(after, i) {
        InsertedAt(ring, e, k, i);
        InsertedAt(ring, e, k, if i + 1 == |after| then 0 else i + 1);
        InsertedAt(ring, e, k, if i == 0 then |after| - 1 else i - 1);
        if i != k {
          assert old(LinkedAt(ring, if i < k then i else i - 1));
        }
      }
    }

    /** Takes this node, the `k`th of `ring`, out of its circle and closes it on itself. */
    method Unlink(ghost ring: seq<ListBase<T>>, ghost k: nat)
      requires Ring(ring) && 1 <= k < |ring| && this == ring[k]
      modifies this`next, this`prev, next`prev, prev`next
      ensures Ring(ring[..k] + ring[k + 1..])
      ensures next == this && prev == this
    {
      ghost var after := ring[..k] + ring[k + 1..];
      assert LinkedAt(ring, k) && LinkedAt(ring, k - 1) && LinkedAt(ring, Wrap(k + 1, |ring|));
      next.prev := prev;
      next.prev.next := next;
      next := this;
      prev := this;
      forall i | 0 <= i < |after| ensures LinkedAt(after, i) {
        var j := if i < k then i else i + 1;
        assert after[i] == ring[j];
        assert old(LinkedAt(ring, j));
      }
    }
  }

  function Wrap(k: nat, n: nat): nat {
    if k == n then 0 else k
  }

  /** Node `i` of `r` is linked to its neighbours on both sides. */
  ghost predicate LinkedAt<T>(r: seq<ListBase<T>>, i: nat)
    requires i < |r|
    reads r
  {
    && r[i].next == r[if i + 1 == |r| then 0 else i + 1]
    && r[i].prev == r[if i == 0 then |r| - 1 else i - 1]
  }

  /** The nodes of `r`, all different, are one circle in this order. */
  ghost predicate Ring<T>(r: seq<ListBase<T>>)
    reads r
  {
    && r != []
    && (forall i, j :: 0 <= i < j < |r| ==> r[i] != r[j])
    && (forall i :: 0 <= i < |r| ==> LinkedAt(r, i))
  }

  lemma InsertedAt<T>(ring: seq<ListBase<T>>, e: ListBase<T>, k: nat, i: nat)
    requires k <= |ring| && i <= |ring|
    ensures (ring[..k] + [e] + ring[k..])[i] == if i < k then ring[i] else if i == k then e else ring[i - 1]
  {
  }

  /** In the new circle, what stood at `k` follows the new node. */
  lemma InsertedBefore<T>(ring: seq<ListBase<T>>, after: seq<ListBase<T>>, e: ListBase<T>, k: nat)
    requires 1 <= k <= |ring| && after == ring[..k] + [e] + ring[k..] && Ring(after)
    ensures ring[Wrap(k, |ring|)].prev == e
  {
    var i := Wrap(k + 1, |after|);
    assert after[i] == ring[Wrap(k, |ring|)] && after[k] == e;
    assert LinkedAt(after, i);
  }

  // ---- Walking the links ----

  /** The node reached from the first one by `steps` steps along `next` or along `prev`. */
  ghost function Follow<T>(ring: seq<ListBase<T>>, forward: bool, steps: nat): (n: ListBase<T>)
    requires Ring(ring)
    reads ring
    ensures n in ring
  {
    if steps == 0 then ring[0]
    else
      var n := Follow(ring, forward, steps - 1);
      var i :| 0 <= i < |ring| && ring[i] == n;
      assert LinkedAt(ring, i);
      if forward then n.next else n.prev
  }

  /** Along `next` the nodes come in ring order, along `prev` in the reverse, and both come round. */
  lemma {:induction false} FollowsRing<T>(ring: seq<ListBase<T>>, steps: nat)
    requires Ring(ring) && steps <= |ring|
    ensures Follow(ring, true, steps) == ring[Wrap(steps, |ring|)]
    ensures Follow(ring, false, steps) == ring[if steps == 0 then 0 else |ring| - steps]
  {
    if steps > 0 {
      FollowsRing(ring, steps - 1);
      assert LinkedAt(ring, steps - 1);
      assert LinkedAt(ring, if steps == 1 then 0 else |ring| - (steps - 1));
    }
  }

  // ---- The container ----

  /** The sentinel first, then data nodes. */
  ghost predicate HeadedBy<T>(ring: seq<ListBase<T>>, root: ListBase<T>) {
    && ring != [] && ring[0] == root && root.ele.None?
    && forall i :: 1 <= i < |ring| ==> ring[i].ele.Some?
  }

  ghost function Elements<T>(ring: seq<ListBase<T>>, root: ListBase<T>): (s: seq<T>)
    requires HeadedBy(ring, root)
    ensures |s| == |ring| - 1 && forall i :: 0 <= i < |s| ==> s[i] == ring[i + 1].ele.value
  {
    seq(|ring| - 1, i requires 0 <= i < |ring| - 1 => ring[i + 1].ele.value)
  }

  lemma InsertedElements<T>(ring: seq<ListBase<T>>, root: ListBase<T>, e: ListBase<T>, k: nat)
    requires HeadedBy(ring, root) && 1 <= k <= |ring| && e.ele.Some?
    ensures var after := ring[..k] + [e] + ring[k..]; var s := Elements(ring, root);
      HeadedBy(after, root) && Elements(after, root) == s[..k - 1] + [e.ele.value] + s[k - 1..]
  {
    var after, s := ring[..k] + [e] + ring[k..], Elements(ring, root);
    forall i | 0 <= i < |after| ensures after[i] == if i < k then ring[i] else if i == k then e else ring[i - 1] {
      InsertedAt(ring, e, k, i);
    }
    var t := Elements(after, root);
    forall i | 0 <= i < |t| ensures t[i] == (s[..k - 1] + [e.ele.value] + s[k - 1..])[i] {
    }
  }

  lemma ErasedElements<T>(ring: seq<ListBase<T>>, root: ListBase<T>, k: nat)
    requires HeadedBy(ring, root) && 1 <= k < |ring|
    ensures var after := ring[..k] + ring[k + 1..]; var s := Elements(ring, root);
      HeadedBy(after, root) && Elements(after, root) == s[..k - 1] + s[k..]
  {
    var after := ring[..k] + ring[k + 1..];
    assert forall i :: 0 <= i < |after| ==> after[i] == ring[if i < k then i else i + 1];
    assert HeadedBy(after, root);
  }

  class Buffers<T> {
    const root: ListBase<T>
    /** The nodes in order, the sentinel first. */
    ghost var ring: seq<ListBase<T>>

    ghost predicate Valid()
      reads this, ring
    {
      Ring(ring) && HeadedBy(ring, root)
    }

    ghost function Contents(): (s: seq<T>)
      requires Valid()
      reads this, ring
      ensures |s| == |ring| - 1
    {
      Elements(ring, root)
    }

    constructor ()
      ensures Valid() && fresh(root) && ring == [root] && Contents() == []
    {
      root := new ListBase(None);
      new;
      ring := [root];
    }

    /** `insert` before `pos`, which may be the end. All other nodes stay as and where they are. */
    method InsertBefore(pos: ListBase<T>, val: T, ghost k: nat) returns (item: ListBase<T>)
      requires Valid() && 1 <= k <= |ring| && pos == ring[Wrap(k, |ring|)]
      modifies this`ring, ring
      ensures Valid() && fresh(item)
      ensures ring == old(ring[..k]) + [item] + old(ring[k..])
      ensures Contents() == old(Contents()[..k - 1]) + [val] + old(Contents()[k - 1..])
    {
      var node := new ListBase(Some(val));
      ghost var after := ring[..k] + [node] + ring[k..];
      InsertedElements(ring, root, node, k);
      assert LinkedAt(ring, Wrap(k, |ring|));
      pos.Insert(node, ring, k);
      InsertedBefore(ring, after, node, k);
      ring := after;
      return pos.prev;
    }

    method PushBack(val: T)
      requires Valid()
      modifies this`ring, ring
      ensures Valid() && Contents() == old(Contents()) + [val]
      ensures |ring| == |old(ring)| + 1 && ring[..|old(ring)|] == old(ring) && fresh(ring[|old(ring)|])
    {
      var item := InsertBefore(root, val, |ring|);
    }

    method PushFront(val: T)
      requires Valid()
      modifies this`ring, ring
      ensures Valid() && Contents() == [val] + old(Contents())
      ensures |ring| == |old(ring)| + 1 && ring[2..] == old(ring)[1..] && fresh(ring[1])
    {
      assert LinkedAt(ring, 0);
      var item := InsertBefore(root.next, val, 1);
    }

    /** `erase`, for a position that holds an element: the position after it comes back. */
    method Erase(pos: ListBase<T>, ghost k: nat) returns (after: ListBase<T>)
      requires Valid() && 1 <= k < |ring| && pos == ring[k]
      modifies this`ring, ring
      ensures ring == old(ring[..k]) + old(ring[k + 1..])
      ensures Valid() && after == ring[Wrap(k, |ring|)]
      ensures Contents() == old(Contents()[..k - 1]) + old(Contents()[k..])
      ensures pos !in ring && pos.next == pos && pos.prev == pos
    {
      ErasedElements(ring, root, k);
      assert LinkedAt(ring, k) && LinkedAt(ring, k - 1) && LinkedAt(ring, Wrap(k + 1, |ring|));
      after := pos.next;
      pos.Unlink(ring, k);
      ring := ring[..k] + ring[k + 1..];
    }

    method PopBack()
      requires Valid()
      modifies this`ring, ring
      ensures Valid()
      ensures Contents() == if old(Contents()) == [] then [] else old(Contents()[..|Contents()| - 1])
      ensures ring == if |old(ring)| == 1 then old(ring) else old(ring[..|ring| - 1])
    {
      assert LinkedAt(ring, 0);
      if root.prev == root {
        return;
      }
      var _ := Erase(root.prev, |ring| - 1);
    }

    method PopFront()
      requires Valid()
      modifies this`ring, ring
      ensures Valid()
      ensures Contents() == if old(Contents()) == [] then [] else old(Contents()[1..])
      ensures ring == if |old(ring)| == 1 then old(ring) else [root] + old(ring[2..])
    {
      assert LinkedAt(ring, 0);
      if root.next == root {
        return;
      }
      var _ := Erase(root.next, 1);
    }

    method Begin() returns (it: ListBase<T>)
      requires Valid()
      ensures it == ring[Wrap(1, |ring|)]
    {
      assert LinkedAt(ring, 0);
      it := root.next;
    }

    method Back() returns (it: ListBase<T>)
      requires Valid()
      ensures it == ring[|ring| - 1]
      ensures Contents() != [] ==> it.ele == Some(Contents()[|Contents()| - 1])
    {
      assert LinkedAt(ring, 0);
      it := root.prev;
      if |ring| > 1 { assert Contents()[|ring| - 2] == ring[|ring| - 1].ele.value; }
    }

    method Empty() returns (e: bool)
      requires Valid()
      ensures e <==> Contents() == []
    {
      assert LinkedAt(ring, 0);
      e := root.next == root;
    }

    /** The destructor: `freed` is what it deletes, in order. A node's link is read before the node
        is deleted and never after. */
    method Destroy() returns (freed: seq<ListBase<T>>)
      requires Valid()
      ensures freed == ring[1..]
    {
      freed := [];
      assert LinkedAt(ring, 0);
      var head := root.next;
      var t := root.next;
      ghost var i := 1;
      while head != root
        invariant 1 <= i <= |ring|
        invariant head == t == ring[Wrap(i, |ring|)]
        invariant freed == ring[1..i]
        invariant t == root || t !in freed
        decreases |ring| - i
      {
        assert LinkedAt(ring, i);
        head := t.next;
        freed := freed + [t];
        t := head;
        i := i + 1;
      }
    }
  }
}
