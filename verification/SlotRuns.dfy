/** Whole runs of shm_alloc and shm_dealloc. */
module SlotRuns {
  import opened CTypes
  import opened RadixSort
  import opened SlotPools

  // ---------------------------------------------------------------- arrays and sets

  lemma CanonMembers(S: set<int>, m: nat)
    requires S <= Slots(m)
    ensures forall x :: x in S <==> x in Canon(S, m) && x != 0
  {
    ListedIs(S, m);
    assert forall x :: x in Listed(S, m) <==> x in Elements(Listed(S, m));
  }

  lemma CanonInjective(S: set<int>, T: set<int>, m: nat)
    requires S <= Slots(m) && T <= Slots(m) && Canon(S, m) == Canon(T, m)
    ensures S == T
  {
    CanonMembers(S, m);
    CanonMembers(T, m);
  }

  /** The block an allocation takes, and its first and last slot. */
  lemma BlockEnds(F: set<int>, m: nat, num: nat)
    requires F <= Slots(m) && 1 <= num <= |F|
    ensures |Listed(F, m)| == |F| && Listed(F, m)[0] > 0
    ensures Listed(F, m)[0] in Lowest(F, m, num) && Listed(F, m)[num - 1] in Lowest(F, m, num)
    ensures forall x :: x in Lowest(F, m, num) ==> Listed(F, m)[0] <= x <= Listed(F, m)[num - 1]
  {
    ListedIs(F, m);
    ListedPositive(F, m);
    var s := Listed(F, m);
    var u := s[..num];
    assert u[0] == s[0] && u[num - 1] == s[num - 1];
    forall x | x in u ensures s[0] <= x <= s[num - 1] {
      var i :| 0 <= i < num && s[i] == x;
    }
  }

  /** A part of B1 that lies below the rest of B1 is its lowest part. */
  lemma LowerHalf(B1: set<int>, T: set<int>, m: nat)
    requires B1 <= Slots(m) && T <= B1
    requires forall x, y :: x in T && y in B1 - T ==> x < y
    ensures Lowest(B1, m, |T|) == T
  {
    assert B1 == T + (B1 - T) && |B1| == |T| + |B1 - T|;
    LowestIs(B1, m, |T|);
    var L := Lowest(B1, m, |T|);
    forall x | x in T ensures x in L {
      if x !in L {
        assert x in B1 - L;
        forall y | y in L ensures y in T - {x} {
          assert y < x;
          assert y !in B1 - T;
        }
        SubsetSize(L, T - {x});
      }
    }
    SubsetSize(T, L);
  }

  // ---------------------------------------------------------------- every run keeps the partition

  /** A call to shm_alloc, or a call to shm_dealloc on the lowest live slot. */
  datatype Op = AllocOp(num: nat) | FreeLowestOp(num: nat)

  predicate Allowed(p: Pools, op: Op)
    requires |p.free| == |p.busy|
  {
    && 1 <= op.num <= |p.free|
    && (op.FreeLowestOp? ==> p.busy[0] > 0 && p.busy[op.num - 1] > 0)
  }

  function Do(p: Pools, op: Op): (q: Pools)
    requires |p.free| == |p.busy| && Allowed(p, op)
    ensures |q.free| == |q.busy| == |p.free|
  {
    match op
    case AllocOp(n) => Alloc(p, n).pools
    case FreeLowestOp(n) => Dealloc(p, n, p.busy[0] * 1024).value
  }

  predicate LegalRun(p: Pools, ops: seq<Op>)
    requires |p.free| == |p.busy|
    decreases |ops|
  {
    ops == [] || (Allowed(p, ops[0]) && LegalRun(Do(p, ops[0]), ops[1..]))
  }

  function Run(p: Pools, ops: seq<Op>): (q: Pools)
    requires |p.free| == |p.busy| && LegalRun(p, ops)
    decreases |ops|
  {
    if ops == [] then p else Run(Do(p, ops[0]), ops[1..])
  }

  /** The same calls on the set of free slots alone. */
  ghost function DoSet(F: set<int>, m: nat, op: Op): set<int> {
    match op
    case AllocOp(n) => if n <= |F| then F - Lowest(F, m, n) else F
    case FreeLowestOp(n) => F + Lowest(Slots(m) - F, m, n)
  }

  ghost function RunSet(F: set<int>, m: nat, ops: seq<Op>): set<int>
    decreases |ops|
  {
    if ops == [] then F else RunSet(DoSet(F, m, ops[0]), m, ops[1..])
  }

  lemma BusyCount(B: set<int>, m: nat, n: nat)
    requires B <= Slots(m) && 1 <= n <= m && Canon(B, m)[n - 1] > 0
    ensures n <= |B| && |Listed(B, m)| == |B| && Canon(B, m)[0] == Listed(B, m)[0]
  {
    ListedIs(B, m);
  }

  lemma DoRefines(F: set<int>, m: nat, op: Op)
    requires F <= Slots(m) && Allowed(Canonical(F, m), op)
    ensures DoSet(F, m, op) <= Slots(m)
    ensures Do(Canonical(F, m), op) == Canonical(DoSet(F, m, op), m)
  {
    match op
    case AllocOp(n) =>
      AllocCanonical(F, m, n);
    case FreeLowestOp(n) =>
      BusyCount(Slots(m) - F, m, n);
      LowestIs(Slots(m) - F, m, n);
      DeallocLowest(F, m, n, Canon(Slots(m) - F, m)[0] * 1024);
  }

  /** Every run of the array allocator is a run of the set of free slots. */
  lemma {:induction false} RunRefines(F: set<int>, m: nat, ops: seq<Op>)
    requires F <= Slots(m) && LegalRun(Canonical(F, m), ops)
    ensures RunSet(F, m, ops) <= Slots(m)
    ensures Run(Canonical(F, m), ops) == Canonical(RunSet(F, m, ops), m)
    decreases |ops|
  {
    if ops != [] {
      DoRefines(F, m, ops[0]);
      RunRefines(DoSet(F, m, ops[0]), m, ops[1..]);
    }
  }

  /** The pools after buffer_init. */
  function Fresh(m: nat): (p: Pools)
    ensures |p.free| == |p.busy| == m
  {
    Pools(seq(m, i => i + 1), Zeros(m))
  }

  lemma {:induction false} CountUp(S: set<int>, lo: int, hi: int)
    requires lo <= hi && forall x :: lo <= x < hi ==> x in S
    ensures |Ascending(S, lo, hi)| == hi - lo
    ensures forall i :: 0 <= i < hi - lo ==> Ascending(S, lo, hi)[i] == lo + i
    decreases hi - lo
  {
    if lo < hi {
      CountUp(S, lo + 1, hi);
    }
  }

  lemma FreshIsCanonical(m: nat)
    ensures Fresh(m) == Canonical(Slots(m), m)
  {
    CountUp(Slots(m), 1, m + 1);
    assert Canon(Slots(m), m) == Fresh(m).free;
    assert Slots(m) - Slots(m) == {};
    ListedIs({}, m);
    assert Canon({}, m) == Zeros(m);
  }

  /** A strictly ascending positive prefix of length n followed by zeros. */
  ghost predicate TidyAt(s: seq<int>, n: nat) {
    && n <= |s|
    && (forall i :: 0 <= i < n ==> s[i] > 0)
    && StrictlyAscending(s[..n])
    && (forall i :: n <= i < |s| ==> s[i] == 0)
  }

  ghost predicate Tidy(s: seq<int>) {
    exists n :: TidyAt(s, n)
  }

  lemma CanonIsTidy(S: set<int>, m: nat)
    requires S <= Slots(m)
    ensures Tidy(Canon(S, m))
  {
    ListedIs(S, m);
    ListedPositive(S, m);
    assert Canon(S, m)[..|S|] == Listed(S, m);
    assert TidyAt(Canon(S, m), |S|);
  }

  /** After any run of allocations of any sizes and releases from the lowest live slot,
      both pools are tidy and every slot is in exactly one of them. */
  lemma RunKeepsPartition(m: nat, ops: seq<Op>)
    requires LegalRun(Fresh(m), ops)
    ensures var p := Run(Fresh(m), ops);
            && Tidy(p.free) && Tidy(p.busy)
            && (forall x :: 1 <= x <= m ==> (x in p.free <==> x !in p.busy))
            && (forall x :: x in p.free || x in p.busy ==> 0 <= x <= m)
  {
    FreshIsCanonical(m);
    RunRefines(Slots(m), m, ops);
    var F := RunSet(Slots(m), m, ops);
    CanonIsTidy(F, m);
    CanonIsTidy(Slots(m) - F, m);
    CanonMembers(F, m);
    CanonMembers(Slots(m) - F, m);
  }

  /** The back-fill writes of both functions land only on zeros. */
  lemma BackFillOverwritesZeros(F: set<int>, m: nat, num: nat)
    requires F <= Slots(m) && num <= m
    ensures num <= |F| ==> Canon(Slots(m) - F, m)[m - num..] == Zeros(num)
    ensures num <= |Slots(m) - F| ==> Canon(F, m)[m - num..] == Zeros(num)
  {
    PoolSizes(F, m);
    CanonIs(F, m - |F|, m);
    CanonIs(Slots(m) - F, |F|, m);
  }

  // ---------------------------------------------------------------- runs of one request size

  /** The k slots after slot number lo. */
  ghost function Group(lo: nat, k: nat): (G: set<int>)
    ensures forall x :: x in G <==> lo < x <= lo + k
    ensures |G| == k
  {
    UpToIs(lo, k);
    assert Consecutive(UpTo(lo, k), lo, k);
    var G :| Consecutive(G, lo, k);
    G
  }

  /** Above lo, each whole group of k is all free or all busy, and the slots left over are free. */
  ghost predicate Aligned(F: set<int>, lo: nat, k: nat, m: nat)
    requires k >= 1
    decreases m - lo
  {
    if lo + k > m then forall x :: lo < x <= m ==> x in F
    else (Group(lo, k) <= F || Group(lo, k) !! F) && Aligned(F, lo + k, k, m)
  }

  /** Where the first group above lo whose first slot is in S starts. */
  function FirstGroup(S: set<int>, lo: nat, k: nat, m: nat): (g: Option<nat>)
    requires k >= 1
    decreases m - lo
  {
    if lo + k > m then None else if lo + 1 in S then Some(lo) else FirstGroup(S, lo + k, k, m)
  }

  lemma {:induction false} FirstGroupMultiple(S: set<int>, lo: nat, k: nat, m: nat)
    requires k >= 1 && lo % k == 0
    ensures FirstGroup(S, lo, k, m).Some? ==> FirstGroup(S, lo, k, m).value % k == 0
    decreases m - lo
  {
    if lo + k <= m && lo + 1 !in S {
      ModUnique(lo + k, k, lo / k + 1, 0);
      FirstGroupMultiple(S, lo + k, k, m);
    }
  }

  /** Groups of the free set, or of the busy set, are found whole, and nothing lies below them. */
  lemma {:induction false} FirstGroupIs(F: set<int>, S: set<int>, lo: nat, k: nat, m: nat)
    requires k >= 1 && Aligned(F, lo, k, m)
    requires S == F || S == Slots(m) - F
    ensures var g := FirstGroup(S, lo, k, m);
            if g.Some? then
              && lo <= g.value && g.value + k <= m && Group(g.value, k) <= S
              && forall x :: lo < x <= g.value ==> x !in S
            else
              forall x :: lo < x <= m && x in S ==> x > m - k && S == F
    decreases m - lo
  {
    if lo + k <= m {
      WholeGroup(F, S, lo, k, m);
      if lo + 1 !in S {
        FirstGroupIs(F, S, lo + k, k, m);
      }
    }
  }

  lemma WholeGroup(F: set<int>, S: set<int>, lo: nat, k: nat, m: nat)
    requires k >= 1 && lo + k <= m && (Group(lo, k) <= F || Group(lo, k) !! F)
    requires S == F || S == Slots(m) - F
    ensures if lo + 1 in S then Group(lo, k) <= S else forall x :: lo < x <= lo + k ==> x !in S
  {
    assert lo + 1 in Group(lo, k);
    forall x | lo < x <= lo + k ensures x in S <==> lo + 1 in S {
      assert x in Group(lo, k);
    }
  }

  /** The k lowest slots of S are the group where S starts. */
  lemma LowestIsGroup(S: set<int>, g: nat, k: nat, m: nat)
    requires S <= Slots(m) && Group(g, k) <= S && g + k <= m && k >= 1
    requires forall x :: 0 < x <= g ==> x !in S
    ensures k <= |S| && |Listed(S, m)| == |S| && Listed(S, m)[0] == g + 1
    ensures Lowest(S, m, k) == Group(g, k)
  {
    var G := Group(g, k);
    SubsetSize(G, S);
    forall y | y in S - G ensures g + k < y {
      assert y in Slots(m);
    }
    LowerHalf(S, G, m);
    BlockEnds(S, m, k);
    assert g + 1 in G && Listed(S, m)[0] in G;
  }

  /** Nothing found: fewer than k slots of S are left above lo. */
  lemma {:induction false} NoGroupFewLeft(F: set<int>, lo: nat, k: nat, m: nat)
    requires k >= 1 && Aligned(F, lo, k, m) && lo <= m && FirstGroup(F, lo, k, m).None?
    requires F <= Slots(m) && forall x :: 0 < x <= lo ==> x !in F
    ensures |F| < k
    decreases m - lo
  {
    if lo + k <= m {
      assert lo + 1 in Group(lo, k);
      forall x | 0 < x <= lo + k ensures x !in F {
        if x > lo { assert x in Group(lo, k); }
      }
      NoGroupFewLeft(F, lo + k, k, m);
    } else {
      var R := Group(lo, m - lo);
      forall x | x in F ensures x in R {
        assert x in Slots(m);
      }
      SubsetSize(F, R);
    }
  }

  /** The group at g changes sides as a whole. */
  lemma {:induction false} AlignedAfter(F: set<int>, H: set<int>, S: set<int>, lo: nat, k: nat, m: nat)
    requires k >= 1 && Aligned(F, lo, k, m) && FirstGroup(S, lo, k, m).Some?
    requires S == F || S == Slots(m) - F
    requires var G := Group(FirstGroup(S, lo, k, m).value, k);
             && (forall x :: x > lo && x !in G ==> (x in H <==> x in F))
             && (G <= H || G !! H)
    ensures Aligned(H, lo, k, m)
    decreases m - lo
  {
    var g := FirstGroup(S, lo, k, m).value;
    FirstGroupIs(F, S, lo, k, m);
    if g == lo {
      AlignedFrame(F, H, lo + k, k, m);
    } else {
      AlignedAfter(F, H, S, lo + k, k, m);
      GroupFrame(F, H, lo, k);
    }
  }

  lemma GroupFrame(F: set<int>, H: set<int>, lo: nat, k: nat)
    requires forall x :: lo < x <= lo + k ==> (x in H <==> x in F)
    ensures Group(lo, k) <= F ==> Group(lo, k) <= H
    ensures Group(lo, k) !! F ==> Group(lo, k) !! H
  {
  }

  lemma {:induction false} AlignedFrame(F: set<int>, H: set<int>, lo: nat, k: nat, m: nat)
    requires k >= 1 && Aligned(F, lo, k, m)
    requires forall x :: x > lo ==> (x in H <==> x in F)
    ensures Aligned(H, lo, k, m)
    decreases m - lo
  {
    if lo + k <= m {
      GroupFrame(F, H, lo, k);
      AlignedFrame(F, H, lo + k, k, m);
    }
  }

  /** shm_alloc's header promise, for one request size: when some aligned group of k slots is
      free, the call returns the lowest such group, k consecutive slots; otherwise it fails. */
  lemma SameSizeAlloc(F: set<int>, k: nat, m: nat)
    requires F <= Slots(m) && 1 <= k <= m && Aligned(F, 0, k, m)
    ensures var a, g := Alloc(Canonical(F, m), k), FirstGroup(F, 0, k, m);
            && (a.offset.Some? <==> g.Some?)
            && (g.Some? ==>
                  && g.value % k == 0 && g.value + k <= m && Group(g.value, k) <= F
                  && a == Allocation(Some((g.value + 1) * 1024), Canonical(F - Group(g.value, k), m))
                  && Aligned(F - Group(g.value, k), 0, k, m))
            && (g.None? ==> a.pools == Canonical(F, m))
    ensures FirstGroup(F, 0, k, m).None? ==> forall g: nat :: g + k <= m ==> !(Group(g, k) <= F)
  {
    FirstGroupMultiple(F, 0, k, m);
    var r := FirstGroup(F, 0, k, m);
    if r.Some? {
      GroupTaken(F, r.value, k, m);
    } else {
      NoGroupFewLeft(F, 0, k, m);
      AllocCanonical(F, m, k);
      NoRoom(F, k, m);
    }
  }

  lemma GroupTaken(F: set<int>, g: nat, k: nat, m: nat)
    requires F <= Slots(m) && 1 <= k <= m && Aligned(F, 0, k, m) && FirstGroup(F, 0, k, m) == Some(g)
    ensures g + k <= m && Group(g, k) <= F
    ensures Alloc(Canonical(F, m), k) == Allocation(Some((g + 1) * 1024), Canonical(F - Group(g, k), m))
    ensures Aligned(F - Group(g, k), 0, k, m)
  {
    FirstGroupIs(F, F, 0, k, m);
    LowestTaken(F, g, k, m);
    AlignedAfter(F, F - Group(g, k), F, 0, k, m);
  }

  lemma LowestTaken(F: set<int>, g: nat, k: nat, m: nat)
    requires F <= Slots(m) && 1 <= k <= m && Group(g, k) <= F && g + k <= m
    requires forall x :: 0 < x <= g ==> x !in F
    ensures Alloc(Canonical(F, m), k) == Allocation(Some((g + 1) * 1024), Canonical(F - Group(g, k), m))
  {
    LowestIsGroup(F, g, k, m);
    AllocTakesLowest(F, m, k);
  }

  lemma NoRoom(F: set<int>, k: nat, m: nat)
    requires |F| < k
    ensures forall g: nat :: g + k <= m ==> !(Group(g, k) <= F)
  {
    forall g: nat | g + k <= m ensures !(Group(g, k) <= F) {
      if Group(g, k) <= F { SubsetSize(Group(g, k), F); }
    }
  }

  /** Releasing the lowest live block gives back exactly its k consecutive slots. */
  lemma SameSizeFree(F: set<int>, k: nat, m: nat)
    requires F <= Slots(m) && 1 <= k <= m && Aligned(F, 0, k, m)
    requires Canon(Slots(m) - F, m)[0] > 0
    ensures Allowed(Canonical(F, m), FreeLowestOp(k))
    ensures var g := FirstGroup(Slots(m) - F, 0, k, m);
            && g.Some? && g.value % k == 0 && Group(g.value, k) !! F && g.value + k <= m
            && Canon(Slots(m) - F, m)[0] == g.value + 1
            && Do(Canonical(F, m), FreeLowestOp(k)) == Canonical(F + Group(g.value, k), m)
            && Aligned(F + Group(g.value, k), 0, k, m)
  {
    var B := Slots(m) - F;
    FirstGroupIs(F, B, 0, k, m);
    FirstGroupMultiple(B, 0, k, m);
    BusyCount(B, m, 1);
    var r := FirstGroup(B, 0, k, m);
    assert r.Some? by {
      var x := Listed(B, m)[0];
      ListedIs(B, m);
      assert x in Elements(Listed(B, m)) && x in Slots(m);
    }
    LowestIsGroup(B, r.value, k, m);
    CanonIs(B, m - |B|, m);
    ListedPositive(B, m);
    assert Canon(B, m)[k - 1] == Listed(B, m)[k - 1];
    DoRefines(F, m, FreeLowestOp(k));
    AlignedAfter(F, F + Group(r.value, k), B, 0, k, m);
  }

  ghost predicate OneSize(ops: seq<Op>, k: nat) {
    forall i :: 0 <= i < |ops| ==> ops[i].num == k
  }

  lemma {:induction false} SameSizeRunFrom(F: set<int>, m: nat, k: nat, ops: seq<Op>)
    requires F <= Slots(m) && 1 <= k <= m && Aligned(F, 0, k, m)
    requires OneSize(ops, k) && LegalRun(Canonical(F, m), ops)
    ensures Aligned(RunSet(F, m, ops), 0, k, m)
    decreases |ops|
  {
    if ops != [] {
      DoRefines(F, m, ops[0]);
      match ops[0] {
        case AllocOp(_) =>
          SameSizeAlloc(F, k, m);
          AllocCanonical(F, m, k);
          if FirstGroup(F, 0, k, m).Some? {
            CanonInjective(F - Group(FirstGroup(F, 0, k, m).value, k), DoSet(F, m, ops[0]), m);
          }
        case FreeLowestOp(_) =>
          SameSizeFree(F, k, m);
          CanonInjective(F + Group(FirstGroup(Slots(m) - F, 0, k, m).value, k), DoSet(F, m, ops[0]), m);
      }
      SameSizeRunFrom(DoSet(F, m, ops[0]), m, k, ops[1..]);
    }
  }

  lemma {:induction false} FreshIsAligned(lo: nat, k: nat, m: nat)
    requires k >= 1
    ensures Aligned(Slots(m), lo, k, m)
    decreases m - lo
  {
    if lo + k <= m {
      assert Group(lo, k) <= Slots(m);
      FreshIsAligned(lo + k, k, m);
    }
  }

  /** In every state reached with one request size, the free slots are whole groups: so
      SameSizeAlloc and SameSizeFree describe every call of every such run. */
  lemma SameSizeRun(m: nat, k: nat, ops: seq<Op>)
    requires 1 <= k <= m && OneSize(ops, k) && LegalRun(Fresh(m), ops)
    ensures exists F: set<int> :: F <= Slots(m) && Run(Fresh(m), ops) == Canonical(F, m) && Aligned(F, 0, k, m)
  {
    FreshIsCanonical(m);
    FreshIsAligned(0, k, m);
    RunRefines(Slots(m), m, ops);
    SameSizeRunFrom(Slots(m), m, k, ops);
  }

  /** The pools while the one block of k slots that Jane uses is live. */
  ghost function Held(m: nat, k: nat): (p: Pools)
    ensures |p.free| == |p.busy| == m
  {
    Canonical(Slots(m) - Group(0, k), m)
  }

  /** Jane's calls: with no block live an allocation returns offset 1024, and giving that block
      back restores the pools element for element, ready for the same block again. */
  lemma OneBlockCycle(m: nat, k: nat)
    requires 1 <= k <= m
    ensures Alloc(Fresh(m), k) == Allocation(Some(1024), Held(m, k))
    ensures Dealloc(Held(m, k), k, 1024) == Some(Fresh(m))
  {
    FreshIsCanonical(m);
    FreshIsAligned(0, k, m);
    SameSizeAlloc(Slots(m), k, m);
    assert FirstGroup(Slots(m), 0, k, m) == Some(0);
    var F, G := Slots(m) - Group(0, k), Group(0, k);
    assert Slots(m) - F == G;
    LowestIsGroup(G, 0, k, m);
    DeallocLowest(F, m, k, 1024);
    assert F + G == Slots(m);
  }
}
