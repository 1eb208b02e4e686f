/** asgard.c: the allocator itself, updating its two pools in place. */
module Asgard {
  import opened CTypes
  import opened CountingSort
  import opened RadixSort
  import opened SlotPools
  import SlotRuns

  /** Slot k lies at offset k * 1024. */
  const BUFFER_SIZE: cint := 1024

  ghost predicate InRange(s: seq<int>, m: int) {
    forall i :: 0 <= i < |s| ==> 0 <= s[i] <= m
  }

  lemma CompactInRange(s: seq<int>, m: nat)
    requires InRange(s, m)
    ensures InRange(Compact(s), m)
  {
  }

  lemma SortInRange(s: seq<int>, m: nat)
    requires InRange(s, m)
    ensures InRange(Sort(s), m)
  {
    SortSorts(s);
    forall i | 0 <= i < |s| ensures 0 <= Sort(s)[i] <= m {
      assert Sort(s)[i] in multiset(s);
    }
  }

  class Allocator {
    var members: cint
    var freePool: array<cint>
    var busyPool: array<cint>

    ghost predicate Valid()
      reads this, freePool, busyPool
    {
      && 1 <= members && members * 1024 <= INT_MAX
      && freePool != busyPool
      && freePool.Length == busyPool.Length == members
      && InRange(freePool[..], members) && InRange(busyPool[..], members)
    }

    ghost function Contents(): Pools
      reads this, freePool, busyPool
    {
      Pools(freePool[..], busyPool[..])
    }

    /** init_memory, buffer_init and free_pool_init: the segment holds one 1024-byte unit
        more than there are slots, and slot numbers start at 1. */
    constructor (buffers: cint)
      requires 1 <= buffers && buffers * 1024 + 1024 <= INT_MAX
      ensures Valid() && fresh(freePool) && fresh(busyPool)
      ensures members == buffers && Contents() == SlotRuns.Fresh(buffers)
    {
      var sz: cint := buffers * BUFFER_SIZE + BUFFER_SIZE;
      members := sz / BUFFER_SIZE - 1;
      freePool := new cint[buffers](_ => 0);
      busyPool := new cint[buffers](_ => 0);
      new;
      assert members == buffers;
      for i := 0 to members
        invariant members == buffers == freePool.Length == busyPool.Length
        invariant freePool != busyPool && fresh(freePool) && fresh(busyPool)
        invariant busyPool[..] == Zeros(buffers)
        invariant forall j :: 0 <= j < i ==> freePool[j] == j + 1
      {
        freePool[i] := i + 1;
      }
      assert freePool[..] == SlotRuns.Fresh(buffers).free;
    }

    /** shm_alloc: the offset of the block, or None for NULL. */
    method ShmAlloc(num: cint) returns (root: Option<cint>)
      requires Valid() && num <= members
      modifies freePool, busyPool
      ensures Valid()
      ensures Allocation(root, Contents()) == Alloc(old(Contents()), if num < 0 then 0 else num)
    {
      ghost var p := Contents();
      var i: cint := 0;
      while i < num
        invariant Contents() == p
        invariant 0 <= i && (i <= num || i == 0)
        invariant Enough(p.free, i)
      {
        if freePool[i] == 0 {
          return None;
        }
        i := i + 1;
      }
      root := Some(freePool[0] * BUFFER_SIZE);
      TakeFromFree(num);
      ReorderPools(freePool, busyPool);
    }

    /** The loop of shm_alloc that moves num slots to the end of the busy pool. */
    method TakeFromFree(num: cint)
      requires Valid() && num <= members
      modifies freePool, busyPool
      ensures Valid()
      ensures var n := if num < 0 then 0 else num;
              && freePool[..] == Zeros(n) + old(freePool[..])[n..]
              && busyPool[..] == old(busyPool[..])[..members - n] + Reversed(old(freePool[..])[..n])
    {
      ghost var f, b := freePool[..], busyPool[..];
      var i: cint := 0;
      while i < num
        invariant 0 <= i && (i <= num || i == 0)
        invariant forall j :: 0 <= j < i ==> freePool[j] == 0
        invariant forall j :: i <= j < members ==> freePool[j] == f[j]
        invariant forall j :: 0 <= j < members - i ==> busyPool[j] == b[j]
        invariant forall j :: members - i <= j < members ==> busyPool[j] == f[members - 1 - j]
      {
        busyPool[members - 1 - i] := freePool[i];
        freePool[i] := 0;
        i := i + 1;
      }
      assert freePool[..] == Zeros(i) + f[i..];
      assert busyPool[..] == b[..members - i] + Reversed(f[..i]);
    }

    /** shm_dealloc: false where the assertion that the block is busy stops the program, or its
        loop would write outside the arrays. */
    method ShmDealloc(num: cint, offset: cint) returns (ok: bool)
      requires Valid()
      modifies freePool, busyPool
      ensures Valid()
      ensures var r := Dealloc(old(Contents()), if num < 0 then 0 else num, offset);
              ok == r.Some? && Contents() == if ok then r.value else old(Contents())
    {
      ghost var p := Contents();
      var n := SlotOf(offset);
      var binres := BinarySearch(busyPool, members, n);
      if binres == -1 || num > members {
        return false;
      }
      assert IndexOf(p.busy, n) == binres;
      GiveToFree(binres, num);
      ReorderPools(busyPool, freePool);
      return true;
    }

    /** The tail both functions share: compact the pool slots left, sort and compact the other. */
    method ReorderPools(left: array<cint>, gained: array<cint>)
      requires left != gained && left.Length == gained.Length == members && members * 1024 <= INT_MAX
      requires InRange(left[..], members) && InRange(gained[..], members)
      modifies left, gained
      ensures left[..] == Compact(old(left[..])) && InRange(left[..], members)
      ensures gained[..] == Compact(Sort(old(gained[..]))) && InRange(gained[..], members)
    {
      CompactInRange(left[..], members);
      MoveArray(left);
      SortInRange(gained[..], members);
      RadixSort.RadixSort(gained);
      CompactInRange(gained[..], members);
      MoveArray(gained);
    }

    /** The loop of shm_dealloc, which starts at the block's place and stops at num. */
    method GiveToFree(binres: cint, num: cint)
      requires Valid() && 0 <= binres < members && num <= members
      modifies freePool, busyPool
      ensures Valid()
      ensures binres < num ==> freePool[..] == BackFilled(old(freePool[..]), old(busyPool[..]), binres, num)
      ensures binres < num ==> busyPool[..] == Cleared(old(busyPool[..]), binres, num)
      ensures binres >= num ==> Contents() == old(Contents())
    {
      ghost var f, b := freePool[..], busyPool[..];
      var i := binres;
      while i < num
        invariant binres <= i && (i <= num || i == binres)
        invariant forall j :: members - i <= j < members - binres ==> freePool[j] == b[members - 1 - j]
        invariant forall j :: 0 <= j < members && !(members - i <= j < members - binres) ==> freePool[j] == f[j]
        invariant forall j :: binres <= j < i ==> busyPool[j] == 0
        invariant forall j :: 0 <= j < members && !(binres <= j < i) ==> busyPool[j] == b[j]
      {
        freePool[members - 1 - i] := busyPool[i];
        busyPool[i] := 0;
        i := i + 1;
      }
      if binres < num {
        assert freePool[..] == BackFilled(f, b, binres, num);
        assert busyPool[..] == Cleared(b, binres, num);
      }
    }
  }
}
