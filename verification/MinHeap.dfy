/** The pointer min-heap. Keys live in the nodes, which others may change through their own references. */
module MinHeap {
  import opened Network

  class DijkstraNode {
    var id: int
    var state: NodeState
    var tentDist: real
    var links: seq<Link>
    var prevId: int

    constructor (id: int, state: NodeState, tentDist: real, links: seq<Link>)
      ensures this.id == id && this.state == state && this.tentDist == tentDist
      ensures this.links == links && prevId == -1
    {
      this.id, this.state, this.tentDist, this.links := id, state, tentDist, links;
      prevId := -1;
    }
  }

  function Parent(i: nat): nat requires i > 0 { (i - 1) / 2 }
  function Left(i: nat): nat { 2 * i + 1 }
  function Right(i: nat): nat { 2 * i + 2 }

  // ---------- Heap order on the sequence of keys ----------

  /** Every node whose parent is at or after `lo` has a key no less than its parent's. */
  ghost predicate Ordered(keys: seq<real>, lo: int) {
    forall j :: 0 < j < |keys| && lo <= Parent(j) ==> keys[Parent(j)] <= keys[j]
  }

  /** Order but for the key at `hole`, which may be larger than its children's. */
  ghost predicate TooLargeAt(keys: seq<real>, lo: int, hole: nat) {
    && (forall j :: 0 < j < |keys| && lo <= Parent(j) && Parent(j) != hole ==> keys[Parent(j)] <= keys[j])
    && (hole > 0 && lo <= Parent(hole) ==>
          forall j :: 0 < j < |keys| && Parent(j) == hole ==> keys[Parent(hole)] <= keys[j])
  }

  /** Order but for the key at `hole`, which may be smaller than its parent's. */
  ghost predicate TooSmallAt(keys: seq<real>, hole: nat) {
    && (forall j :: 0 < j < |keys| && j != hole ==> keys[Parent(j)] <= keys[j])
    && (hole > 0 ==> forall j :: 0 < j < |keys| && Parent(j) == hole ==> keys[Parent(hole)] <= keys[j])
  }

  ghost function Exchange(s: seq<real>, i: nat, j: nat): seq<real>
    requires i < |s| && j < |s|
  {
    s[i := s[j]][j := s[i]]
  }

  lemma SiftDownStep(keys: seq<real>, lo: nat, i: nat, child: nat)
    requires lo <= i < |keys| && 0 < child < |keys| && Parent(child) == i
    requires TooLargeAt(keys, lo, i)
    requires keys[child] < keys[i]
    requires forall j :: 0 < j < |keys| && Parent(j) == i ==> keys[child] <= keys[j]
    ensures TooLargeAt(Exchange(keys, i, child), lo, child)
  {
  }

  lemma SiftUpStart(keys: seq<real>, key: real)
    requires Ordered(keys, 0)
    ensures TooSmallAt(keys + [key], |keys|)
  {
  }

  lemma SiftUpDone(keys: seq<real>, i: nat)
    requires i < |keys| && TooSmallAt(keys, i)
    requires i == 0 || keys[Parent(i)] <= keys[i]
    ensures Ordered(keys, 0)
  {
  }

  lemma SiftUpStep(keys: seq<real>, i: nat)
    requires 0 < i < |keys|
    requires TooSmallAt(keys, i)
    requires keys[i] < keys[Parent(i)]
    ensures TooSmallAt(Exchange(keys, i, Parent(i)), Parent(i))
  {
    var p := Parent(i);
    assert forall j :: 0 < j < |keys| && Parent(j) == p && j != i ==> keys[p] <= keys[j];
  }

  lemma {:induction false} RootIsLeast(keys: seq<real>, j: nat)
    requires Ordered(keys, 0) && j < |keys|
    ensures keys[0] <= keys[j]
  {
    if j > 0 {
      RootIsLeast(keys, Parent(j));
    }
  }

  class MinHeap {
    var size: nat
    const nodePtrs: array<DijkstraNode?>

    /** Structure only: the used slots hold distinct nodes. Says nothing about the keys. */
    ghost predicate Valid()
      reads this, nodePtrs
    {
      && size <= nodePtrs.Length
      && (forall i :: 0 <= i < size ==> nodePtrs[i] != null)
      && (forall i, j :: 0 <= i < j < size ==> nodePtrs[i] != nodePtrs[j])
    }

    ghost function Members(): set<DijkstraNode>
      reads this, nodePtrs
      requires Valid()
    {
      set i | 0 <= i < size :: nodePtrs[i]
    }

    /** The keys in slot order, read through the pointers. */
    ghost function Keys(): seq<real>
      reads this, nodePtrs, nodePtrs[..]
      requires Valid()
    {
      seq(size, i requires Valid() && 0 <= i < size reads this, nodePtrs, nodePtrs[..] => nodePtrs[i].tentDist)
    }

    constructor (max: nat)
      ensures Valid() && size == 0 && nodePtrs.Length == max && fresh(nodePtrs)
    {
      size := 0;
      nodePtrs := new DijkstraNode?[max](_ => null);
    }

    method Swap(i: nat, j: nat)
      requires Valid() && i < size && j < size
      modifies nodePtrs
      ensures Valid() && Members() == old(Members())
      ensures Keys() == Exchange(old(Keys()), i, j)
    {
      nodePtrs[i], nodePtrs[j] := nodePtrs[j], nodePtrs[i];
      assert nodePtrs[i] in Members() && nodePtrs[j] in Members();
      assert forall k :: 0 <= k < size && k != i && k != j ==> old(nodePtrs[k]) == nodePtrs[k] && nodePtrs[k] in Members();
    }

    /** The store at the end of the array that opens an insertion. */
    method Append(n: DijkstraNode)
      requires Valid() && n !in Members() && size < nodePtrs.Length
      modifies this`size, nodePtrs
      ensures Valid() && Members() == old(Members()) + {n}
      ensures Keys() == old(Keys()) + [n.tentDist]
    {
      nodePtrs[size] := n;
      size := size + 1;
      assert forall k :: 0 <= k < size - 1 ==> nodePtrs[k] == old(nodePtrs[k]) && nodePtrs[k] in old(Members());
      assert nodePtrs[size - 1] in Members();
    }

    method Insert(n: DijkstraNode)
      requires Valid() && Ordered(Keys(), 0)
      requires n !in Members() && size < nodePtrs.Length
      modifies this`size, nodePtrs
      ensures Valid() && Ordered(Keys(), 0)
      ensures Members() == old(Members()) + {n} && size == old(size) + 1
    {
      SiftUpStart(Keys(), n.tentDist);
      Append(n);
      var i: nat := size - 1;
      while i != 0 && nodePtrs[Parent(i)].tentDist > nodePtrs[i].tentDist
        invariant i < size == old(size) + 1 && Valid()
        invariant Members() == old(Members()) + {n}
        invariant TooSmallAt(Keys(), i)
      {
        SiftUpStep(Keys(), i);
        Swap(i, Parent(i));
        i := Parent(i);
      }
      SiftUpDone(Keys(), i);
    }

    method Heapify(i: nat, ghost lo: nat)
      requires Valid() && lo <= i < size
      requires TooLargeAt(Keys(), lo, i)
      modifies nodePtrs
      ensures Valid() && Members() == old(Members())
      ensures Ordered(Keys(), lo)
      decreases size - i
    {
      ghost var keys := Keys();
      var l, r := Left(i), Right(i);
      var smallest := i;
      if l < size && nodePtrs[l].tentDist < nodePtrs[i].tentDist {
        smallest := l;
      }
      if r < size && nodePtrs[r].tentDist < nodePtrs[smallest].tentDist {
        smallest := r;
      }
      assert l < size ==> keys[smallest] <= keys[l];
      assert r < size ==> keys[smallest] <= keys[r];
      assert forall j :: 0 < j < size && Parent(j) == i ==> j == l || j == r;
      if smallest != i {
        SiftDownStep(keys, lo, i, smallest);
        Swap(i, smallest);
        Heapify(smallest, lo);
      }
    }

    /** Restores heap order whatever was done to the keys since the last call. */
    method BuildHeap()
      requires Valid()
      modifies nodePtrs
      ensures Valid() && Members() == old(Members())
      ensures Ordered(Keys(), 0)
    {
      var i: int := size / 2 - 1;
      while i >= 0
        invariant -1 <= i < size || size == 0
        invariant Valid() && Members() == old(Members())
        invariant Ordered(Keys(), i + 1)
      {
        Heapify(i, i);
        i := i - 1;
      }
    }

    method Pop() returns (root: DijkstraNode)
      requires Valid() && Ordered(Keys(), 0) && size > 0
      modifies this`size, nodePtrs
      ensures Valid() && Ordered(Keys(), 0)
      ensures root in old(Members()) && Members() == old(Members()) - {root}
      ensures forall n :: n in old(Members()) ==> root.tentDist <= n.tentDist
    {
      forall n | n in Members() ensures nodePtrs[0].tentDist <= n.tentDist {
        var j :| 0 <= j < size && nodePtrs[j] == n;
        RootIsLeast(Keys(), j);
        assert Keys()[j] == n.tentDist;
      }
      if size == 1 {
        size := size - 1;
        return nodePtrs[0];
      }
      root := nodePtrs[0];
      ghost var keys := Keys();
      nodePtrs[0] := nodePtrs[size - 1];
      size := size - 1;
      forall n | n in old(Members()) - {root} ensures n in Members() {
        var j :| 0 <= j < old(size) && old(nodePtrs[j]) == n;
        assert nodePtrs[if j == size then 0 else j] == n;
      }
      assert Keys() == keys[..size][0 := keys[size]];
      Heapify(0, 0);
    }
  }
}
