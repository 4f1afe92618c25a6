/** The binary min-heap behind delayed rows and lease deadlines
    (packages/queue/src/queue/core/min-heap.util.ts). */
module MinHeaps {
  import opened Options

  function Parent(i: nat): nat
    requires i > 0
  {
    (i - 1) / 2
  }

  /** Heap order at every index but `hole`, which may be smaller than its parent. */
  ghost predicate OrderedExceptUp<T(!new)>(d: seq<T>, key: T -> real, hole: nat) {
    && (forall k :: 0 < k < |d| && k != hole ==> key(d[Parent(k)]) <= key(d[k]))
    && (forall k :: 0 < k < |d| && Parent(k) == hole && hole > 0 ==> key(d[Parent(hole)]) <= key(d[k]))
  }

  /** Heap order between every pair of indices from `lo` on, except that
      `hole` may be larger than its children. */
  ghost predicate OrderedExceptDown<T(!new)>(d: seq<T>, key: T -> real, lo: nat, hole: nat) {
    && (forall k :: 0 < k < |d| && Parent(k) >= lo && Parent(k) != hole ==> key(d[Parent(k)]) <= key(d[k]))
    && (forall k :: 0 < k < |d| && Parent(k) == hole && hole > lo && Parent(hole) >= lo ==>
        key(d[Parent(hole)]) <= key(d[k]))
  }

  ghost predicate OrderedFrom<T(!new)>(d: seq<T>, key: T -> real, lo: nat) {
    forall k :: 0 < k < |d| && Parent(k) >= lo ==> key(d[Parent(k)]) <= key(d[k])
  }

  ghost predicate Ordered<T(!new)>(d: seq<T>, key: T -> real) {
    forall k :: 0 < k < |d| ==> key(d[Parent(k)]) <= key(d[k])
  }

  /** In a heap-ordered array the root carries a least key. */
  lemma {:induction false} RootIsLeast<T(!new)>(d: seq<T>, key: T -> real, k: nat)
    requires Ordered(d, key)
    requires k < |d|
    ensures key(d[0]) <= key(d[k])
  {
    if k > 0 {
      RootIsLeast(d, key, Parent(k));
    }
  }

  lemma RootIsLeastValue<T(!new)>(d: seq<T>, key: T -> real)
    requires Ordered(d, key)
    ensures forall v :: v in d ==> key(d[0]) <= key(v)
  {
    forall v | v in d ensures key(d[0]) <= key(v) {
      var k :| 0 <= k < |d| && d[k] == v;
      RootIsLeast(d, key, k);
    }
  }

  lemma SwapKeepsValues<T>(d: seq<T>, i: nat, j: nat)
    requires i < |d| && j < |d|
    ensures multiset(d[i := d[j]][j := d[i]]) == multiset(d)
  {
  }

  /** Swapping a hole with its larger parent moves the hole up to that parent. */
  lemma SwapMovesHoleUp<T(!new)>(d: seq<T>, key: T -> real, i: nat)
    requires 0 < i < |d| && OrderedExceptUp(d, key, i) && key(d[i]) < key(d[Parent(i)])
    ensures OrderedExceptUp(d[i := d[Parent(i)]][Parent(i) := d[i]], key, Parent(i))
  {
    var p := Parent(i);
    var e := d[i := d[p]][p := d[i]];
    forall k | 0 < k < |e| && k != p
      ensures key(e[Parent(k)]) <= key(e[k])
    {
      if k != i {
        assert key(d[Parent(k)]) <= key(d[k]);
      }
    }
    forall k | 0 < k < |e| && Parent(k) == p && p > 0
      ensures key(e[Parent(p)]) <= key(e[k])
    {
      assert key(d[Parent(p)]) <= key(d[p]);
      assert k != i ==> key(d[p]) <= key(d[k]);
    }
  }

  /** A hole that is no larger than its children is no hole. */
  lemma HoleIsFilled<T(!new)>(d: seq<T>, key: T -> real, lo: nat, i: nat)
    requires OrderedExceptDown(d, key, lo, i) && i < |d|
    requires 2 * i + 1 < |d| ==> key(d[i]) <= key(d[2 * i + 1])
    requires 2 * i + 2 < |d| ==> key(d[i]) <= key(d[2 * i + 2])
    ensures OrderedFrom(d, key, lo)
  {
    forall k | 0 < k < |d| && Parent(k) == i
      ensures key(d[i]) <= key(d[k])
    {
      assert k == 2 * i + 1 || k == 2 * i + 2;
    }
  }

  /** Swapping a hole with its smaller child moves the hole down to that child. */
  lemma SwapMovesHoleDown<T(!new)>(d: seq<T>, key: T -> real, lo: nat, i: nat, child: nat)
    requires lo <= i < child < |d| && (child == 2 * i + 1 || child == 2 * i + 2)
    requires OrderedExceptDown(d, key, lo, i)
    requires key(d[child]) < key(d[i])
    requires 2 * i + 1 < |d| ==> key(d[child]) <= key(d[2 * i + 1])
    requires 2 * i + 2 < |d| ==> key(d[child]) <= key(d[2 * i + 2])
    ensures OrderedExceptDown(d[i := d[child]][child := d[i]], key, lo, child)
  {
    var e := d[i := d[child]][child := d[i]];
    assert Parent(child) == i;
    forall k | 0 < k < |e| && Parent(k) >= lo && Parent(k) != child
      ensures key(e[Parent(k)]) <= key(e[k])
    {
      assert Parent(k) == i ==> k == 2 * i + 1 || k == 2 * i + 2;
      if k == i {
        assert key(d[Parent(i)]) <= key(d[child]);
      }
    }
    forall k | 0 < k < |e| && Parent(k) == child
      ensures key(e[Parent(child)]) <= key(e[k])
    {
      assert k != i && k != child;
    }
  }

  class MinHeap<T(==,!new)> {
    const keyOf: T -> real
    var data: seq<T>

    ghost predicate Valid()
      reads this
    {
      Ordered(data, keyOf)
    }

    constructor (keyOf: T -> real)
      ensures Valid() && data == [] && this.keyOf == keyOf
    {
      this.keyOf := keyOf;
      data := [];
    }

    method Swap(i: nat, j: nat)
      requires i < |data| && j < |data|
      modifies this
      ensures data == old(data)[i := old(data)[j]][j := old(data)[i]]
      ensures multiset(data) == multiset(old(data))
    {
      SwapKeepsValues(data, i, j);
      data := data[i := data[j]][j := data[i]];
    }

    method SiftUp(index: nat)
      requires index < |data| && OrderedExceptUp(data, keyOf, index)
      modifies this
      ensures Valid()
      ensures multiset(data) == multiset(old(data)) && |data| == |old(data)|
    {
      var i: nat := index;
      while i > 0
        invariant i < |data| == |old(data)|
        invariant OrderedExceptUp(data, keyOf, i)
        invariant multiset(data) == multiset(old(data))
      {
        var parent := (i - 1) / 2;
        if keyOf(data[i]) >= keyOf(data[parent]) {
          break;
        }
        SwapMovesHoleUp(data, keyOf, i);
        Swap(i, parent);
        i := parent;
      }
    }

    method SiftDown(index: nat, ghost lo: nat)
      requires lo <= index < |data| && OrderedExceptDown(data, keyOf, lo, index)
      modifies this
      ensures OrderedFrom(data, keyOf, lo)
      ensures multiset(data) == multiset(old(data)) && |data| == |old(data)|
    {
      var i: nat := index;
      var n := |data|;
      while true
        invariant lo <= i < |data| == n
        invariant OrderedExceptDown(data, keyOf, lo, i)
        invariant multiset(data) == multiset(old(data))
        decreases n - i
      {
        var left := i * 2 + 1;
        var right := left + 1;
        var smallest := if left < n && keyOf(data[left]) < keyOf(data[i]) then left else i;
        smallest := if right < n && keyOf(data[right]) < keyOf(data[smallest]) then right else smallest;
        if smallest == i {
          HoleIsFilled(data, keyOf, lo, i);
          break;
        }
        SwapMovesHoleDown(data, keyOf, lo, i, smallest);
        Swap(i, smallest);
        i := smallest;
      }
    }

    method Push(value: T)
      requires Valid()
      modifies this
      ensures Valid()
      ensures multiset(data) == multiset(old(data)) + multiset{value}
    {
      data := data + [value];
      SiftUp(|data| - 1);
    }

    /** A value of least key, absent exactly when the heap is empty. */
    method Peek() returns (top: Option<T>)
      requires Valid()
      ensures top.None? <==> data == []
      ensures top.Some? ==> top.value == data[0] && forall v :: v in data ==> keyOf(top.value) <= keyOf(v)
    {
      RootIsLeastValue(data, keyOf);
      top := if data == [] then None else Some(data[0]);
    }

    method Pop() returns (top: Option<T>)
      requires Valid()
      modifies this
      ensures Valid()
      ensures top.None? <==> old(data) == []
      ensures top.None? ==> data == []
      ensures top.Some? ==>
        && top == Some(old(data)[0])
        && multiset(old(data)) == multiset(data) + multiset{top.value}
        && forall v :: v in old(data) ==> keyOf(top.value) <= keyOf(v)
    {
      if data == [] {
        return None;
      }
      RootIsLeastValue(data, keyOf);
      top := Some(data[0]);
      var last := data[|data| - 1];
      assert data == data[..|data| - 1] + [last];
      data := data[..|data| - 1];
      if |data| > 0 {
        data := data[0 := last];
        SiftDown(0, 0);
      }
    }

    /** Removal by identity: one occurrence goes, whatever its position. */
    method Remove(value: T) returns (removed: bool)
      requires Valid()
      modifies this
      ensures Valid()
      ensures removed <==> value in old(data)
      ensures multiset(old(data)) == multiset(data) + (if removed then multiset{value} else multiset{})
    {
      var index := 0;
      while index < |data| && data[index] != value
        invariant 0 <= index <= |data|
        invariant value !in data[..index]
      {
        index := index + 1;
      }
      if index == |data| {
        return false;
      }
      var last := data[|data| - 1];
      assert data == data[..|data| - 1] + [last];
      data := data[..|data| - 1];
      if index < |data| {
        data := data[index := last];
        if index > 0 && keyOf(data[index]) < keyOf(data[(index - 1) / 2]) {
          SiftUp(index);
        } else {
          SiftDown(index, 0);
        }
      }
      return true;
    }

    /** Bottom-up rebuild: the new heap holds exactly `values`. */
    method Rebuild(values: seq<T>)
      modifies this
      ensures Valid()
      ensures multiset(data) == multiset(values)
    {
      data := values;
      var i := |data| / 2 - 1;
      while i >= 0
        invariant -1 <= i <= |data| / 2 - 1
        invariant OrderedFrom(data, keyOf, i + 1)
        invariant multiset(data) == multiset(values)
        invariant |data| == |values|
      {
        SiftDown(i, i);
        i := i - 1;
      }
    }

    method Clear()
      modifies this
      ensures Valid() && data == []
    {
      data := [];
    }
  }
}
