/** The nodes of the lock table of server/webdav/lock.go and the heap that orders them by expiry. The
    sift-up and sift-down are those of container/heap, written with the heap's own Less, Swap, Push and Pop. */
module LockHeap {

  datatype LockDetails = LockDetails(root: string, duration: int, ownerXML: string, zeroDepth: bool)

  class Node {
    var details: LockDetails
    var token: string
    var refCount: int
    var expiry: int
    var byExpiryIndex: int
    var held: bool

    constructor (root: string)
      ensures details == LockDetails(root, 0, "", false) && token == "" && refCount == 0
      ensures byExpiryIndex == -1 && !held
    {
      details := LockDetails(root, 0, "", false);
      token, refCount, expiry, byExpiryIndex, held := "", 0, 0, -1, false;
    }
  }

  class ByExpiry {
    var b: seq<Node>

    /** The back-indices are right; so no node occurs twice. */
    ghost predicate Indexed()
      reads this, Items()`byExpiryIndex
    {
      forall i :: 0 <= i < |b| ==> b[i].byExpiryIndex == i
    }

    /** The expiry times, in heap order. */
    ghost function Keys(): (ks: seq<int>)
      reads this, Items()`expiry
      ensures |ks| == |b| && forall i :: 0 <= i < |b| ==> ks[i] == b[i].expiry
    {
      ExpiryTimes(b)
    }

    static ghost function ExpiryTimes(b: seq<Node>): (ks: seq<int>)
      reads (set n | n in b)`expiry
      ensures |ks| == |b| && forall i :: 0 <= i < |b| ==> ks[i] == b[i].expiry
    {
      if b == [] then [] else [b[0].expiry] + ExpiryTimes(b[1..])
    }

    ghost predicate Ordered()
      reads this, Items()`expiry
    {
      OrderedTo(Keys(), |b|)
    }

    ghost function Items(): set<Node>
      reads this
    {
      set n | n in b
    }

    lemma ItemIndices()
      requires Indexed()
      ensures forall n :: n in Items() ==> 0 <= n.byExpiryIndex < |b| && b[n.byExpiryIndex] == n
    {
    }

    /** The first node of the heap expires no later than any other. */
    lemma FirstIsLeast(n: Node)
      requires Ordered() && n in Items()
      ensures b != [] && b[0].expiry <= n.expiry
    {
      var i :| 0 <= i < |b| && b[i] == n;
      RootIsLeast(Keys(), i);
    }

    twostate lemma OrderKept()
      requires old(Ordered()) && b == old(b) && forall n :: n in Items() ==> n.expiry == old(n.expiry)
      ensures Ordered()
    {
      assert Keys() == old(Keys());
    }

    constructor ()
      ensures b == []
    {
      b := [];
    }

    predicate Less(i: nat, j: nat)
      requires i < |b| && j < |b|
      reads this, b
    {
      b[i].expiry < b[j].expiry
    }

    method Swap(i: nat, j: nat)
      requires Indexed() && i < |b| && j < |b|
      modifies this, Items()`byExpiryIndex
      ensures Indexed() && b == old(b)[i := old(b)[j]][j := old(b)[i]] && Items() == old(Items())
      ensures Keys() == Swapped(old(Keys()), i, j)
    {
      hide Keys;
      b := b[i := b[j]][j := b[i]];
      b[i].byExpiryIndex := i;
      b[j].byExpiryIndex := j;
      assert old(b)[i] == b[j] && old(b)[j] == b[i];
      assert forall k :: 0 <= k < |b| ==> old(b)[k] == b[if k == i then j else if k == j then i else k];
      assert forall k :: 0 <= k < |b| ==> b[k] in old(b);
    }

    method Push(n: Node)
      modifies this, n`byExpiryIndex
      ensures b == old(b) + [n] && n.byExpiryIndex == |old(b)|
    {
      n.byExpiryIndex := |b|;
      b := b + [n];
    }

    method Pop() returns (n: Node)
      requires b != [] && Indexed()
      modifies this, Items()`byExpiryIndex
      ensures n == old(b)[|old(b)| - 1] && b == old(b)[..|old(b)| - 1] && n.byExpiryIndex == -1
      ensures Indexed() && Items() == old(Items()) - {n} && Keys() == old(Keys())[..|b|]
    {
      var i := |b| - 1;
      n := b[i];
      n.byExpiryIndex := -1;
      b := b[..i];
    }

    /** container/heap: up, among the first n nodes */
    method SiftUp(j0: nat, ghost n: nat)
      requires Indexed() && j0 < n <= |b| && OrderedExceptAt(Keys(), j0, n)
      modifies this, Items()`byExpiryIndex
      ensures |b| == old(|b|) && b[n..] == old(b[n..])
      ensures Indexed() && OrderedTo(Keys(), n) && Items() == old(Items())
    {
      hide Keys;
      var j: nat := j0;
      while j > 0
        invariant j < n <= |b| == old(|b|) && b[n..] == old(b[n..])
        invariant Indexed() && OrderedExceptAt(Keys(), j, n)
        invariant Items() == old(Items())
        decreases j
      {
        var i := (j - 1) / 2;
        if !Less(j, i) { break; }
        ghost var ks := Keys();
        Swap(i, j);
        UpStep(ks, j, n);
        j := i;
      }
      UpDone(Keys(), j, n);
    }

    /** The choice of a child in down. */
    method LesserChild(i: nat, n: nat) returns (j: nat)
      requires 2 * i + 1 < n <= |b|
      ensures i < j < n && Parent(j) == i && LeastChild(Keys(), i, j, n)
    {
      var j1 := 2 * i + 1;
      j := j1;
      if j1 + 1 < n && Less(j1 + 1, j1) { j := j1 + 1; }
    }

    /** container/heap: down, among the first n nodes */
    method SiftDown(i0: nat, n: nat) returns (moved: bool)
      requires Indexed() && i0 < n <= |b| && Hole(Keys(), i0, n)
      modifies this, Items()`byExpiryIndex
      ensures |b| == old(|b|) && b[n..] == old(b[n..])
      ensures Indexed() && Items() == old(Items())
      ensures if moved then OrderedTo(Keys(), n) else OrderedExceptAt(Keys(), i0, n)
    {
      hide Hole, OrderedExceptAt, OrderedTo, Swapped, LeastChild, Keys;
      var i: nat := i0;
      while true
        invariant i0 <= i < n <= |b| == old(|b|) && b[n..] == old(b[n..])
        invariant Indexed() && Hole(Keys(), i, n) && (i > i0 ==> AtMost(Keys(), Parent(i), i))
        invariant Items() == old(Items())
        decreases n - i
      {
        ghost var ks := Keys();
        var j1 := 2 * i + 1;
        if j1 >= n {
          DownDone(ks, i, n);
          break;
        }
        var j := LesserChild(i, n);
        if !Less(j, i) {
          ChildrenNotLess(ks, i, j, n);
          DownDone(ks, i, n);
          break;
        }
        Swap(i, j);
        DownStep(ks, i, j, n);
        i := j;
      }
      moved := i > i0;
    }

    /** container/heap: Push */
    method HeapPush(n: Node)
      requires Indexed() && Ordered() && n.byExpiryIndex == -1
      modifies this, Items()`byExpiryIndex, n`byExpiryIndex
      ensures Indexed() && Ordered() && Items() == old(Items()) + {n}
    {
      hide Keys;
      ghost var ks := Keys();
      Push(n);
      assert forall i: nat :: 0 < i < |ks| ==> AtMost(ks, Parent(i), i);
      assert forall i: nat :: 0 < i < |ks| ==> AtMost(Keys(), Parent(i), i);
      SiftUp(|b| - 1, |b|);
    }

    /** container/heap: Remove */
    method HeapRemove(i: nat) returns (x: Node)
      requires Indexed() && Ordered() && i < |b|
      modifies this, Items()`byExpiryIndex
      ensures x == old(b)[i] && x.byExpiryIndex == -1
      ensures Indexed() && Ordered() && Items() == old(Items()) - {x}
    {
      hide Hole, OrderedExceptAt, Swapped, Keys;
      var n := |b| - 1;
      x := b[i];
      ghost var ks := Keys();
      if n != i {
        RemoveHole(ks, i, n);
        Swap(i, n);
        var moved := SiftDown(i, n);
        if !moved { SiftUp(i, n); }
        assert b[n..][0] == x;
      } else {
        OrderedPrefix(ks, n);
      }
      OrderedPrefix(Keys(), n);
      var popped := Pop();
    }
  }

  // ---------- heap order on a sequence of keys ----------

  function Parent(i: nat): nat { if i == 0 then 0 else (i - 1) / 2 }

  ghost predicate AtMost(ks: seq<int>, i: nat, j: nat) { i < |ks| && j < |ks| && ks[i] <= ks[j] }

  ghost predicate OrderedTo(ks: seq<int>, n: nat) {
    forall i: nat :: 0 < i < n ==> AtMost(ks, Parent(i), i)
  }

  /** Every child but `hole` is not before its parent, and the children of `hole` are not before its parent. */
  ghost predicate OrderedExceptAt(ks: seq<int>, hole: nat, n: nat) {
    && (forall i: nat :: 0 < i < n && i != hole ==> AtMost(ks, Parent(i), i))
    && (forall i: nat :: 0 < i < n && Parent(i) == hole && hole > 0 ==> AtMost(ks, Parent(hole), i))
  }

  /** Every child is in order but `hole` and its children, which are not before the parent of `hole`. */
  ghost predicate Hole(ks: seq<int>, hole: nat, n: nat) {
    && (forall i: nat :: 0 < i < n && i != hole && Parent(i) != hole ==> AtMost(ks, Parent(i), i))
    && (forall i: nat :: 0 < i < n && Parent(i) == hole && hole > 0 ==> AtMost(ks, Parent(hole), i))
  }

  ghost function Swapped(ks: seq<int>, i: nat, j: nat): seq<int>
    requires i < |ks| && j < |ks|
  {
    ks[i := ks[j]][j := ks[i]]
  }

  lemma UpStep(ks: seq<int>, j: nat, n: nat)
    requires 0 < j < n <= |ks| && OrderedExceptAt(ks, j, n) && ks[j] < ks[Parent(j)]
    ensures OrderedExceptAt(Swapped(ks, Parent(j), j), Parent(j), n)
  {
    var p := Parent(j);
    var ks' := Swapped(ks, p, j);
    forall i: nat | 0 < i < n && i != p ensures AtMost(ks', Parent(i), i) {
      if i != j { assert AtMost(ks, Parent(i), i); }
      if Parent(i) == j { assert AtMost(ks, p, i); }
    }
    forall i: nat | 0 < i < n && Parent(i) == p && p > 0 ensures AtMost(ks', Parent(p), i) {
      assert AtMost(ks, Parent(p), p);
      if i != j { assert AtMost(ks, p, i); }
    }
  }

  lemma UpDone(ks: seq<int>, j: nat, n: nat)
    requires j < n <= |ks| && OrderedExceptAt(ks, j, n) && (j == 0 || ks[Parent(j)] <= ks[j])
    ensures OrderedTo(ks, n)
  {
  }

  /** j is a child of i with a least key. */
  ghost predicate LeastChild(ks: seq<int>, i: nat, j: nat, n: nat)
    requires n <= |ks|
  {
    && i < j < n && Parent(j) == i && (j == 2 * i + 1 || j == 2 * i + 2)
    && (2 * i + 1 < n ==> ks[j] <= ks[2 * i + 1]) && (2 * i + 2 < n ==> ks[j] <= ks[2 * i + 2])
  }

  lemma ChildrenNotLess(ks: seq<int>, i: nat, j: nat, n: nat)
    requires i < n <= |ks| && LeastChild(ks, i, j, n) && ks[i] <= ks[j]
    ensures (2 * i + 1 < n ==> ks[i] <= ks[2 * i + 1]) && (2 * i + 2 < n ==> ks[i] <= ks[2 * i + 2])
  {
  }

  lemma DownStep(ks: seq<int>, i: nat, j: nat, n: nat)
    requires i < n <= |ks| && Hole(ks, i, n) && LeastChild(ks, i, j, n) && ks[j] < ks[i]
    ensures Hole(Swapped(ks, i, j), j, n) && AtMost(Swapped(ks, i, j), i, j)
  {
    var ks' := Swapped(ks, i, j);
    forall c: nat | 0 < c < n && c != j && Parent(c) != j ensures AtMost(ks', Parent(c), c) {
      if c == i {
        assert AtMost(ks, Parent(i), j);
      } else if Parent(c) == i {
        assert c == 2 * i + 1 || c == 2 * i + 2;
      } else {
        assert AtMost(ks, Parent(c), c);
      }
    }
    forall c: nat | 0 < c < n && Parent(c) == j ensures AtMost(ks', i, c) {
      assert AtMost(ks, j, c);
    }
  }

  lemma DownDone(ks: seq<int>, i: nat, n: nat)
    requires i < n <= |ks| && Hole(ks, i, n)
    requires (2 * i + 1 < n ==> ks[i] <= ks[2 * i + 1]) && (2 * i + 2 < n ==> ks[i] <= ks[2 * i + 2])
    ensures OrderedExceptAt(ks, i, n)
    ensures AtMost(ks, Parent(i), i) ==> OrderedTo(ks, n)
  {
    forall c: nat | 0 < c < n && c != i ensures AtMost(ks, Parent(c), c) {
      if Parent(c) == i { assert c == 2 * i + 1 || c == 2 * i + 2; }
    }
  }

  /** Putting the last key in the place of another opens a hole there. */
  lemma RemoveHole(ks: seq<int>, i: nat, n: nat)
    requires i < n && n + 1 == |ks| && OrderedTo(ks, n + 1)
    ensures Hole(Swapped(ks, i, n), i, n)
  {
    var ks' := Swapped(ks, i, n);
    forall c: nat | 0 < c < n && c != i && Parent(c) != i ensures AtMost(ks', Parent(c), c) {
      assert AtMost(ks, Parent(c), c);
    }
    forall c: nat | 0 < c < n && Parent(c) == i && i > 0 ensures AtMost(ks', Parent(i), c) {
      assert AtMost(ks, Parent(i), i) && AtMost(ks, Parent(c), c);
    }
  }

  lemma OrderedPrefix(ks: seq<int>, n: nat)
    requires n <= |ks| && OrderedTo(ks, n)
    ensures OrderedTo(ks[..n], n)
  {
    forall i: nat | 0 < i < n ensures AtMost(ks[..n], Parent(i), i) { assert AtMost(ks, Parent(i), i); }
  }

  /** The root of a heap holds a least key. */
  lemma {:induction false} RootIsLeast(ks: seq<int>, i: nat)
    requires i < |ks| && OrderedTo(ks, |ks|)
    ensures ks[0] <= ks[i]
  {
    if i > 0 {
      RootIsLeast(ks, Parent(i));
      assert AtMost(ks, Parent(i), i);
    }
  }
}
