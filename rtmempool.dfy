// Model of src/rtmempool/rtmempool.c: a pool of preallocated nodes kept on two intrusive
// lists, `used` and `unused`. A node is its address, counted in list heads, so the payload
// handed out is the address one past it. The lists are sequences in list order; the
// mutex is not modelled.

module RtMemPool {
  import opened Utils

  /** The two lists of a pool, head first. */
  datatype Lists = Lists(used: seq<nat>, unused: seq<nat>)

  /** Every node on either list, with its multiplicity. */
  ghost function Elems(l: Lists): multiset<nat>
  {
    multiset(l.used) + multiset(l.unused)
  }

  /** No node is on the lists twice: each list is duplicate-free and they are disjoint. */
  ghost predicate WellFormed(l: Lists)
  {
    forall x :: Elems(l)[x] <= 1
  }

  /** `s` with its occurrence of `x` unlinked, the rest in order (list_del). */
  function Remove(s: seq<nat>, x: nat): (r: seq<nat>)
  {
    if |s| == 0 then []
    else if s[0] == x then s[1..]
    else [s[0]] + Remove(s[1..], x)
  }

  lemma {:induction false} RemoveElems(s: seq<nat>, x: nat)
    requires x in s
    ensures multiset(Remove(s, x)) == multiset(s) - multiset{x}
  {
    assert s == [s[0]] + s[1..];
    if s[0] != x {
      RemoveElems(s[1..], x);
    }
  }

  lemma {:induction false} RemoveLength(s: seq<nat>, x: nat)
    requires x in s
    ensures |Remove(s, x)| == |s| - 1
  {
    if s[0] != x {
      RemoveLength(s[1..], x);
    }
  }

  lemma {:induction false} RemoveAbsent(s: seq<nat>, x: nat)
    requires x !in s
    ensures Remove(s, x) == s
  {
    if |s| > 0 {
      assert s == [s[0]] + s[1..];
      RemoveAbsent(s[1..], x);
    }
  }

  /** The list surgery of allocate: the head of `unused` goes to the tail of `used`. */
  function Taken(l: Lists): Lists
    requires |l.unused| > 0
  {
    Lists(l.used + [l.unused[0]], l.unused[1..])
  }

  /** The list surgery of deallocate: `node` leaves `used` and goes to the tail of
      `unused`. */
  function Returned(l: Lists, node: nat): Lists
  {
    Lists(Remove(l.used, node), l.unused + [node])
  }

  /** Allocating moves one node from unused to used: the set of nodes, and so the sum of
      the two counts, stays the same. */
  lemma TakenKeepsNodes(l: Lists)
    requires |l.unused| > 0
    ensures Elems(Taken(l)) == Elems(l)
    ensures |Taken(l).used| == |l.used| + 1 && |Taken(l).unused| == |l.unused| - 1
    ensures WellFormed(l) ==> WellFormed(Taken(l))
  {
    assert l.unused == [l.unused[0]] + l.unused[1..];
  }

  /** Deallocating a used node moves it from used to unused, with the same effect on the
      counts and the node set. */
  lemma ReturnedKeepsNodes(l: Lists, node: nat)
    requires node in l.used
    ensures Elems(Returned(l, node)) == Elems(l)
    ensures |Returned(l, node).used| == |l.used| - 1 && |Returned(l, node).unused| == |l.unused| + 1
    ensures WellFormed(l) ==> WellFormed(Returned(l, node))
  {
    RemoveElems(l.used, node);
    RemoveLength(l.used, node);
  }

  /** Handing back the node just allocated restores `used`; the node is then the last one
      `unused` will hand out again. */
  lemma TakeThenReturn(l: Lists)
    requires WellFormed(l) && |l.unused| > 0
    ensures Returned(Taken(l), l.unused[0]) == Lists(l.used, l.unused[1..] + [l.unused[0]])
  {
    var n := l.unused[0];
    assert Elems(l)[n] <= 1;
    assert l.unused == [n] + l.unused[1..];
    assert multiset(l.unused)[n] >= 1;
    assert multiset(l.used)[n] == 0;
    RemoveAbsent(l.used, n);
    RemoveAppend(l.used, n);
  }

  lemma {:induction false} RemoveAppend(s: seq<nat>, x: nat)
    requires x !in s
    ensures Remove(s + [x], x) == s
  {
    if |s| > 0 {
      assert (s + [x])[1..] == s[1..] + [x];
      RemoveAppend(s[1..], x);
    }
  }

  function Min(a: nat, b: nat): nat
  {
    if a < b then a else b
  }

  /** Distinct addresses, as live blocks from malloc are. */
  predicate Distinct(s: seq<nat>)
  {
    forall i, j :: 0 <= i < j < |s| ==> s[i] != s[j]
  }

  lemma DistinctWellFormed(s: seq<nat>)
    requires Distinct(s)
    ensures WellFormed(Lists([], s))
  {
    forall x
      ensures Elems(Lists([], s))[x] <= 1
    {
      DistinctCount(s, x);
    }
  }

  lemma {:induction false} DistinctCount(s: seq<nat>, x: nat)
    requires Distinct(s)
    ensures multiset(s)[x] <= 1
  {
    if |s| > 0 {
      assert s == [s[0]] + s[1..];
      DistinctCount(s[1..], x);
      if s[0] == x {
        assert x !in s[1..];
      }
    }
  }

  /** RtMemPool. */
  class Pool {
    var dataSize: nat
    var maxPreallocated: nat
    var used: seq<nat>
    var usedCount: nat
    var unused: seq<nat>
    var unusedCount: nat
    /** Every node the pool preallocated. */
    ghost var nodes: multiset<nat>

    /** The counts are the lengths of the lists, and the lists hold each preallocated
        node exactly once. */
    ghost predicate Valid()
      reads this
    {
      usedCount == |used| && unusedCount == |unused| &&
      Elems(Lists(used, unused)) == nodes && WellFormed(Lists(used, unused))
    }

    function State(): Lists
      reads this
    {
      Lists(used, unused)
    }

    /** The part of rtsafe_memory_pool_create after the pool itself is allocated: both
        lists empty, then nodes are preallocated onto `unused` until there are
        `maxPreallocated` or malloc fails. `heap` lists the blocks malloc hands out, in
        order; it returns NULL once they are used up. */
    constructor (dataSize: nat, maxPreallocated: nat, heap: seq<nat>)
      requires Distinct(heap)
      ensures Valid()
      ensures this.dataSize == dataSize && this.maxPreallocated == maxPreallocated
      ensures used == [] && usedCount == 0
      ensures unused == heap[..Min(|heap|, maxPreallocated)] && unusedCount <= maxPreallocated
    {
      this.dataSize := dataSize;
      this.maxPreallocated := maxPreallocated;
      used := [];
      usedCount := 0;
      unused := [];
      unusedCount := 0;
      nodes := multiset{};
      new;
      while unusedCount < maxPreallocated
        invariant unusedCount <= maxPreallocated && unusedCount <= |heap|
        invariant unused == heap[..unusedCount] && used == [] && usedCount == 0
        invariant this.dataSize == dataSize && this.maxPreallocated == maxPreallocated
        decreases maxPreallocated - unusedCount
      {
        if unusedCount >= |heap| {
          // malloc returned NULL
          break;
        }
        assert heap[..unusedCount + 1] == heap[..unusedCount] + [heap[unusedCount]];
        unused := unused + [heap[unusedCount]];
        unusedCount := unusedCount + 1;
      }
      nodes := multiset(unused);
      DistinctWellFormed(unused);
    }

    /** rtsafe_memory_pool_allocate_atomic: NULL with nothing changed when no node is
        free; otherwise the head of `unused` moves to the tail of `used` and its payload
        is returned. */
    method Allocate() returns (p: Option<nat>)
      requires Valid()
      modifies this
      ensures Valid() && nodes == old(nodes)
      ensures dataSize == old(dataSize) && maxPreallocated == old(maxPreallocated)
      ensures old(unused) == [] ==> p == None && State() == old(State())
      ensures old(unused) != [] ==> p == Some(old(unused)[0] + 1) && State() == Taken(old(State()))
      ensures usedCount + unusedCount == old(usedCount + unusedCount)
    {
      if |unused| == 0 {
        return None;
      }
      var node := unused[0];
      TakenKeepsNodes(State());
      unused := unused[1..];
      unusedCount := unusedCount - 1;
      usedCount := usedCount + 1;
      used := used + [node];
      p := Some(node + 1);
    }

    /** rtsafe_memory_pool_deallocate: the node one list head before `memory`, which must
        be in use, moves to the tail of `unused`. */
    method Deallocate(memory: nat)
      requires Valid() && memory >= 1 && memory - 1 in used
      modifies this
      ensures Valid() && nodes == old(nodes)
      ensures dataSize == old(dataSize) && maxPreallocated == old(maxPreallocated)
      ensures State() == Returned(old(State()), memory - 1)
      ensures usedCount == old(usedCount) - 1 && unusedCount == old(unusedCount) + 1
    {
      var node := memory - 1;
      ReturnedKeepsNodes(State(), node);
      used := Remove(used, node);
      unused := unused + [node];
      usedCount := usedCount - 1;
      unusedCount := unusedCount + 1;
    }

    /** rtsafe_memory_pool_destroy: every chunk must have been handed back; the unused
        nodes are unlinked and freed head first until the list is empty. */
    method Destroy() returns (freed: seq<nat>)
      requires Valid() && usedCount == 0
      modifies this
      ensures freed == old(unused) && unused == [] && unusedCount == 0 && used == []
    {
      freed := [];
      while unusedCount != 0
        invariant unusedCount == |unused| && freed + unused == old(unused) && used == []
      {
        var node := unused[0];
        unused := unused[1..];
        unusedCount := unusedCount - 1;
        freed := freed + [node];
      }
    }
  }

  /** rtsafe_memory_pool_create: false when the pool's own malloc fails. */
  method Create(dataSize: nat, maxPreallocated: nat, poolMemory: bool, heap: seq<nat>)
    returns (ok: bool, pool: Option<Pool>)
    requires Distinct(heap)
    ensures ok <==> poolMemory
    ensures ok <==> pool.Some?
    ensures pool.Some? ==>
              fresh(pool.value) && pool.value.Valid() && pool.value.usedCount == 0 &&
              pool.value.unusedCount == Min(|heap|, maxPreallocated) &&
              pool.value.unused == heap[..Min(|heap|, maxPreallocated)]
  {
    if !poolMemory {
      return false, None;
    }
    var p := new Pool(dataSize, maxPreallocated, heap);
    return true, Some(p);
  }
}
