/** Exactly which blocks shm_alloc hands out in sequence, and which shm_dealloc takes back. */
module SlotBlocks {
  import opened CTypes
  import opened CountingSort
  import opened RadixSort
  import opened SlotPools
  import opened SlotRuns

  // ---------------------------------------------------------------- blocks in sequence

  lemma TakenIsGroup(F: set<int>, T: set<int>, g: nat, num: nat)
    requires T <= F && |T| == num && F - Group(g, num) == F - T
    ensures Group(g, num) <= F
  {
    var G := Group(g, num);
    assert F - (F - T) == T;
    assert T <= G;
    SubsetSize(T, G);
  }

  /** shm_alloc returns consecutive slots, as its header guarantees, exactly when the num slots
      from the lowest free one on are all free. */
  lemma AllocSequentialIff(F: set<int>, m: nat, num: nat)
    requires F <= Slots(m) && 1 <= num <= |F|
    ensures num <= m && |Listed(F, m)| == |F| && Listed(F, m)[0] >= 1
    ensures (exists g: nat :: Alloc(Canonical(F, m), num) ==
                                Allocation(Some((g + 1) * 1024), Canonical(F - Group(g, num), m)))
            <==> Group(Listed(F, m)[0] - 1, num) <= F
  {
    AllocTakesLowest(F, m, num);
    BlockEnds(F, m, num);
    LowestIs(F, m, num);
    var l := Listed(F, m)[0];
    if Group(l - 1, num) <= F {
      assert l - 1 + num in Slots(m);
      forall x | 0 < x <= l - 1 ensures x !in F {
        assert x in Lowest(F, m, num) || x in F - Lowest(F, m, num) || x !in F;
      }
      LowestIsGroup(F, l - 1, num, m);
    }
    forall g: nat | Alloc(Canonical(F, m), num) == Allocation(Some((g + 1) * 1024), Canonical(F - Group(g, num), m))
      ensures Group(l - 1, num) <= F
    {
      CanonInjective(F - Group(g, num), F - Lowest(F, m, num), m);
      TakenIsGroup(F, Lowest(F, m, num), g, num);
      assert g == l - 1;
    }
  }

  // ---------------------------------------------------------------- blocks taken back

  lemma FreedSize(B: set<int>, m: nat, first: nat, num: nat)
    requires B <= Slots(m) && num <= |B|
    ensures Freed(B, m, first, num) <= B
    ensures |Freed(B, m, first, num)| == if first <= num then num - first else 0
  {
    if first <= num {
      FreedIs(B, m, first, num);
    }
  }

  lemma AddedSet(F: set<int>, D: set<int>, E: set<int>, m: nat)
    requires F <= Slots(m) && D <= Slots(m) - F && E <= Slots(m) - F
    requires Canon(F + D, m) == Canon(F + E, m)
    ensures D == E
  {
    CanonInjective(F + D, F + E, m);
    assert D == (F + D) - F;
    assert E == (F + E) - F;
  }

  /** Where in the busy listing a live slot stands. */
  lemma PlaceOf(B: set<int>, m: nat, x: int) returns (p: nat)
    requires B <= Slots(m) && x in B
    ensures |Listed(B, m)| == |B| && p < |B| && Listed(B, m)[p] == x
  {
    ListedIs(B, m);
    assert x in Elements(Listed(B, m));
    p :| 0 <= p < |Listed(B, m)| && Listed(B, m)[p] == x;
  }

  lemma TakenBackIsLow(F: set<int>, m: nat, T: set<int>, offset: nat, p: nat)
    requires F <= Slots(m) && T <= Slots(m) - F && T != {}
    requires |Listed(Slots(m) - F, m)| == |Slots(m) - F| && p < |Slots(m) - F|
    requires offset / 1024 == Listed(Slots(m) - F, m)[p]
    requires |T| <= m && Dealloc(Canonical(F, m), |T|, offset) == Some(Canonical(F + T, m))
    ensures T == Lowest(Slots(m) - F, m, |T|)
  {
    var B, n := Slots(m) - F, |T|;
    SubsetSize(T, B);
    DeallocMoves(F, m, n, p, offset);
    FreedSize(B, m, p, n);
    AddedSet(F, Freed(B, m, p, n), T, m);
    assert p == 0;
    assert Listed(B, m)[0..n] == Listed(B, m)[..n];
  }

  /** shm_dealloc, given the lowest slot of a live block T and its size, frees that block, no more
      and no less, exactly when every slot of the block lies below every other live slot. */
  lemma DeallocFreesBlockIff(F: set<int>, m: nat, T: set<int>, offset: nat)
    requires F <= Slots(m) && T <= Slots(m) - F && offset / 1024 in T
    requires forall x :: x in T ==> offset / 1024 <= x
    ensures 1 <= |T| <= m
    ensures Dealloc(Canonical(F, m), |T|, offset) == Some(Canonical(F + T, m))
            <==> forall x, y :: x in T && y in (Slots(m) - F) - T ==> x < y
  {
    var B := Slots(m) - F;
    SubsetSize(T, Slots(m));
    SubsetSize(T, B);
    var p := PlaceOf(B, m, offset / 1024);
    if forall x, y :: x in T && y in B - T ==> x < y {
      LowerHalf(B, T, m);
      BlockEnds(B, m, |T|);
      DeallocLowest(F, m, |T|, offset);
    } else if Dealloc(Canonical(F, m), |T|, offset) == Some(Canonical(F + T, m)) {
      TakenBackIsLow(F, m, T, offset, p);
      LowestIs(B, m, |T|);
      assert false;
    }
  }

  /** Freeing what was just allocated restores both arrays element for element exactly when
      the block lies below every slot that was already live. */
  lemma AllocThenFreeRestoresIff(F: set<int>, m: nat, num: nat, offset: nat)
    requires F <= Slots(m) && 1 <= num <= |F| && num <= m
    requires Alloc(Canonical(F, m), num).offset == Some(offset)
    ensures |Listed(F, m)| == |F|
    ensures Dealloc(Alloc(Canonical(F, m), num).pools, num, offset) == Some(Canonical(F, m))
            <==> forall y :: y in Slots(m) - F ==> Listed(F, m)[num - 1] < y
  {
    var T := Lowest(F, m, num);
    AllocTakesLowest(F, m, num);
    BlockEnds(F, m, num);
    LowestIs(F, m, num);
    assert F - T + T == F && (Slots(m) - (F - T)) - T == Slots(m) - F;
    DeallocFreesBlockIff(F - T, m, T, offset);
  }

  // ---------------------------------------------------------------- when the pools stay in order

  lemma FilledToTheEnd(free: seq<int>, s: seq<int>, busy: seq<int>, b: seq<int>, first: nat, num: nat, z: nat, c: nat)
    requires |free| == |busy| == |s| + num && first <= |b| && |b| + z == num
    requires free[..|s|] == s && free[|free| - first..] == Zeros(first) && busy == b + Zeros(c)
    ensures BackFilled(free, busy, first, num) == s + Zeros(z) + Reversed(b[first..]) + Zeros(first)
  {
    assert Reversed(busy[first..num]) == Zeros(z) + Reversed(b[first..]);
  }

  lemma ClearedToTheEnd(B: set<int>, m: nat, first: nat, num: nat)
    requires B <= Slots(m) && first < |B| <= num <= m
    ensures Compact(Cleared(Canon(B, m), first, num)) == Canon(Lowest(B, m, first), m)
  {
    LowestIs(B, m, first);
    CanonIs(B, m - |B|, m);
    PoolIsStable(Lowest(B, m, first), m);
    ListedIs(Lowest(B, m, first), m);
    assert Cleared(Canon(B, m), first, num) == Listed(B, m)[..first] + Zeros(m - first);
  }

  lemma PoolEnds(F: set<int>, m: nat, n: nat, first: nat)
    requires F <= Slots(m) && n <= |F| && first <= |Slots(m) - F|
    ensures n <= m && Canon(F, m)[..n] == Listed(Lowest(F, m, n), m)
    ensures first <= m && Canon(F, m)[m - first..] == Zeros(first)
    ensures |Listed(Slots(m) - F, m)| == |Slots(m) - F|
    ensures Canon(Slots(m) - F, m) == Listed(Slots(m) - F, m) + Zeros(m - |Slots(m) - F|)
  {
    PoolSizes(F, m);
    LowestIs(F, m, n);
    CanonIs(F, m - |F|, m);
    CanonIs(Slots(m) - F, |F|, m);
  }

  lemma OverwrittenToTheEnd(F: set<int>, m: nat, first: nat, num: nat)
    requires F <= Slots(m) && first < |Slots(m) - F| <= num <= m
    ensures m - num <= |F|
    ensures Compact(Sort(BackFilled(Canon(F, m), Canon(Slots(m) - F, m), first, num)))
         == Canon(Lowest(F, m, m - num) + Freed(Slots(m) - F, m, first, |Slots(m) - F|), m)
  {
    var B := Slots(m) - F;
    var n, z, b := m - num, num - |B|, Listed(B, m);
    PoolSizes(F, m);
    PoolEnds(F, m, n, first);
    LowestIs(F, m, n);
    FreedIs(B, m, first, |B|);
    assert b[first..] == b[first..|B|];
    OverwrittenParts(Lowest(F, m, n), Freed(B, m, first, |B|), Canon(F, m), Canon(B, m), b, first, num, z, m);
  }

  lemma OverwrittenParts(L: set<int>, D: set<int>, free: seq<int>, busy: seq<int>, b: seq<int>,
                         first: nat, num: nat, z: nat, m: nat)
    requires L <= Slots(m) && D <= Slots(m) && L !! D && |D| + first == |b| && |b| + z == num
    requires |free| == |busy| == m == |L| + num && multiset(b[first..]) == multiset(D)
    requires free[..|L|] == Listed(L, m) && free[m - first..] == Zeros(first) && busy == b + Zeros(m - |b|)
    ensures Compact(Sort(BackFilled(free, busy, first, num))) == Canon(L + D, m)
  {
    ListedIs(L, m);
    FilledToTheEnd(free, Listed(L, m), busy, b, first, num, z, m - |b|);
    PoolGains(L, D, b[first..], z, first, m);
  }

  /** Asking shm_dealloc for all busy slots or more frees those from the block's place on; what
      is asked for beyond them is taken from the highest free slots, which are lost. */
  lemma DeallocToTheEnd(F: set<int>, m: nat, num: nat, first: nat, offset: nat)
    requires F <= Slots(m) && first < |Slots(m) - F| <= num <= m
    requires |Listed(Slots(m) - F, m)| == |Slots(m) - F|
    requires offset / 1024 == Listed(Slots(m) - F, m)[first]
    ensures m - num <= |F|
    ensures Dealloc(Canonical(F, m), num, offset) ==
            Some(Pools(Canon(Lowest(F, m, m - num) + Freed(Slots(m) - F, m, first, |Slots(m) - F|), m),
                       Canon(Lowest(Slots(m) - F, m, first), m)))
  {
    var B := Slots(m) - F;
    PoolSizes(F, m);
    IndexInPool(B, m, first);
    OverwrittenToTheEnd(F, m, first, num);
    ClearedToTheEnd(B, m, first, num);
  }

  /** What is free and what is busy after that make up all slots exactly when no more slots were
      named than were busy. */
  lemma EndSizes(F: set<int>, m: nat, first: nat, num: nat)
    requires F <= Slots(m) && first < |Slots(m) - F| <= num <= m && m - num <= |F|
    ensures var B := Slots(m) - F;
            var G := Lowest(F, m, m - num) + Freed(B, m, first, |B|);
            && G <= Slots(m) && Lowest(B, m, first) <= B
            && (num == |B| ==> Slots(m) - G == Lowest(B, m, first))
            && (num > |B| ==> |G| < m - first && |Lowest(B, m, first)| == first)
  {
    var B := Slots(m) - F;
    PoolSizes(F, m);
    var L, D, K := Lowest(F, m, m - num), Freed(B, m, first, |B|), Lowest(B, m, first);
    LowestIs(F, m, m - num);
    LowestIs(B, m, first);
    FreedIs(B, m, first, |B|);
    assert |L + D| == |L| + |D| by { assert L !! D; }
    if num == |B| {
      SubsetSize(L, F);
      FreedAfter(B, m, first);
      assert Slots(m) - (F + D) == B - D;
    }
  }

  /** The busy slots fall into those before a place and those from it on. */
  lemma FreedAfter(B: set<int>, m: nat, first: nat)
    requires B <= Slots(m) && first <= |B|
    ensures B - Freed(B, m, first, |B|) == Lowest(B, m, first)
  {
    ListedIs(B, m);
    LowestIs(B, m, first);
    FreedIs(B, m, first, |B|);
    var s := Listed(B, m);
    assert s[first..] == s[first..|B|];
    ListedIs(B - Lowest(B, m, first), m);
  }

  lemma NotCanonical(S: set<int>, m: nat, i: nat, k: nat)
    requires S <= Slots(m) && i < k < m && Canon(S, m)[i] == 0
    ensures Canon(S, m)[k] == 0
  {
    ListedIs(S, m);
    ListedPositive(S, m);
  }

  /** Releasing some slots from the middle of busy_pool leaves a zero below a live slot. */
  lemma GapLeft(F: set<int>, G: set<int>, m: nat, num: nat, first: nat, offset: nat)
    requires F <= Slots(m) && 0 < first < num < |Slots(m) - F| && G <= Slots(m) && num <= m
    requires |Listed(Slots(m) - F, m)| == |Slots(m) - F|
    requires offset / 1024 == Listed(Slots(m) - F, m)[first]
    ensures Dealloc(Canonical(F, m), num, offset) != Some(Canonical(G, m))
  {
    var B := Slots(m) - F;
    DeallocMoves(F, m, num, first, offset);
    ListedPositive(B, m);
    var c := Cleared(Canon(B, m), first, num);
    assert c[first] == 0 && c[num] == Listed(B, m)[num] != 0;
    if Canon(Slots(m) - G, m) == c {
      NotCanonical(Slots(m) - G, m, first, num);
    }
  }

  lemma SlotLost(F: set<int>, G: set<int>, m: nat, num: nat, first: nat, offset: nat)
    requires F <= Slots(m) && first < |Slots(m) - F| < num <= m && G <= Slots(m)
    requires |Listed(Slots(m) - F, m)| == |Slots(m) - F|
    requires offset / 1024 == Listed(Slots(m) - F, m)[first]
    ensures Dealloc(Canonical(F, m), num, offset) != Some(Canonical(G, m))
  {
    var B := Slots(m) - F;
    DeallocToTheEnd(F, m, num, first, offset);
    EndSizes(F, m, first, num);
    assert |Slots(m) - G| == m - |G|;
    var H, K := Lowest(F, m, m - num) + Freed(B, m, first, |B|), Lowest(B, m, first);
    if Canon(H, m) == Canon(G, m) && Canon(K, m) == Canon(Slots(m) - G, m) {
      CanonInjective(H, G, m);
      CanonInjective(K, Slots(m) - G, m);
    }
  }

  /** A release leaves both pools as the runs of front releases know them, ascending without gaps
      and together all slots, exactly when the loop has nothing to do, or reaches the last busy
      slot and no further, or starts at the lowest one and does not go past the last. */
  lemma DeallocStaysCanonicalIff(F: set<int>, m: nat, num: nat, first: nat, offset: nat)
    requires F <= Slots(m) && 1 <= num <= m && first < |Slots(m) - F|
    requires |Listed(Slots(m) - F, m)| == |Slots(m) - F|
    requires offset / 1024 == Listed(Slots(m) - F, m)[first]
    ensures (exists G: set<int> :: G <= Slots(m) && Dealloc(Canonical(F, m), num, offset) == Some(Canonical(G, m)))
            <==> first >= num || num == |Slots(m) - F| || (first == 0 && num < |Slots(m) - F|)
  {
    var B := Slots(m) - F;
    if num > |B| {
      forall G: set<int> | G <= Slots(m) ensures Dealloc(Canonical(F, m), num, offset) != Some(Canonical(G, m)) {
        SlotLost(F, G, m, num, first, offset);
      }
    } else if first >= num {
      DeallocMoves(F, m, num, first, offset);
      KeptAsItWas(F, m, num, first);
    } else if num == |B| {
      DeallocToTheEnd(F, m, num, first, offset);
      EndSizes(F, m, first, num);
    } else if first == 0 {
      DeallocLowest(F, m, num, offset);
      LowestIs(B, m, num);
    } else {
      forall G: set<int> | G <= Slots(m) ensures Dealloc(Canonical(F, m), num, offset) != Some(Canonical(G, m)) {
        GapLeft(F, G, m, num, first, offset);
      }
    }
  }

  lemma KeptAsItWas(F: set<int>, m: nat, num: nat, first: nat)
    requires F <= Slots(m) && num <= first
    ensures F + Freed(Slots(m) - F, m, first, num) == F
  {
  }

  // ---------------------------------------------------------------- when no slot is lost

  /** Each of the m slots is in exactly one of the pools. */
  ghost predicate Partition(p: Pools, m: nat) {
    forall x :: 1 <= x <= m ==> (x in p.free <==> x !in p.busy)
  }

  lemma CanonicalPartition(G: set<int>, m: nat)
    requires G <= Slots(m)
    ensures Partition(Canonical(G, m), m)
  {
    CanonMembers(G, m);
    CanonMembers(Slots(m) - G, m);
    assert forall x :: 1 <= x <= m ==> x in Slots(m);
  }

  lemma ClearedMembers(B: set<int>, m: nat, first: nat, num: nat)
    requires B <= Slots(m) && first <= num <= |B|
    ensures num <= m
    ensures forall x :: x > 0 ==> (x in Cleared(Canon(B, m), first, num) <==> x in B - Freed(B, m, first, num))
  {
    SubsetSize(B, Slots(m));
    ListedIs(B, m);
    CanonIs(B, m - |B|, m);
    var s, c, D := Listed(B, m), Cleared(Canon(B, m), first, num), Freed(B, m, first, num);
    assert c == s[..first] + Zeros(num - first) + s[num..] + Zeros(m - |B|);
    forall x | x > 0 ensures x in c <==> x in s[..first] || x in s[num..] {
    }
    SplitMembers(s, first, num);
    forall x ensures x in B <==> x in s {
      assert x in B <==> x in Elements(s);
    }
  }

  lemma SplitMembers(s: seq<int>, first: nat, num: nat)
    requires StrictlyAscending(s) && first <= num <= |s|
    ensures forall x :: x in s[..first] || x in s[num..] <==> x in s && x !in s[first..num]
  {
    var a, b, c := s[..first], s[first..num], s[num..];
    assert s == a + b + c;
    assert forall i, j :: 0 <= i < |a| && 0 <= j < |b| ==> a[i] < b[j];
    assert forall j, k :: 0 <= j < |b| && 0 <= k < |c| ==> b[j] < c[k];
  }

  /** Where slot x is after a release from the middle of busy_pool. */
  lemma MiddleMember(F: set<int>, m: nat, num: nat, first: nat, x: int)
    requires F <= Slots(m) && first <= num <= |Slots(m) - F| && 1 <= x <= m
    ensures num <= m
    ensures x in Cleared(Canon(Slots(m) - F, m), first, num) <==> x !in F && x !in Freed(Slots(m) - F, m, first, num)
  {
    ClearedMembers(Slots(m) - F, m, first, num);
    assert x in Slots(m);
  }

  lemma CanonMember(S: set<int>, m: nat, x: int)
    requires S <= Slots(m) && x > 0
    ensures x in Canon(S, m) <==> x in S
  {
    CanonMembers(S, m);
  }

  lemma FreedInside(F: set<int>, m: nat, first: nat, num: nat)
    requires F <= Slots(m) && first <= num <= |Slots(m) - F|
    ensures F + Freed(Slots(m) - F, m, first, num) <= Slots(m)
  {
    FreedIs(Slots(m) - F, m, first, num);
  }

  lemma MiddleKeepsPartition(F: set<int>, m: nat, num: nat, first: nat, p: Pools)
    requires F <= Slots(m) && first <= num <= |Slots(m) - F| && num <= m
    requires p == Pools(Canon(F + Freed(Slots(m) - F, m, first, num), m), Cleared(Canon(Slots(m) - F, m), first, num))
    ensures Partition(p, m)
  {
    FreedInside(F, m, first, num);
    forall x | 1 <= x <= m ensures x in p.free <==> x !in p.busy {
      MiddleMember(F, m, num, first, x);
      CanonMember(F + Freed(Slots(m) - F, m, first, num), m, x);
    }
  }

  lemma LostIsNoPartition(H: set<int>, K: set<int>, m: nat)
    requires H <= Slots(m) && K <= Slots(m) && |H| + |K| < m
    ensures !Partition(Pools(Canon(H, m), Canon(K, m)), m)
  {
    CanonMembers(H, m);
    CanonMembers(K, m);
    assert |H + K| <= |H| + |K|;
    if Slots(m) <= H + K {
      SubsetSize(Slots(m), H + K);
    }
    var x :| x in Slots(m) && x !in H + K;
    assert x !in Canon(H, m) && x !in Canon(K, m);
  }

  /** After a release from any live slot each slot is in exactly one pool, in whatever order,
      exactly when no more slots were named than were busy. */
  lemma DeallocKeepsPartitionIff(F: set<int>, m: nat, num: nat, first: nat, offset: nat, p: Pools)
    requires F <= Slots(m) && 1 <= num <= m && first < |Slots(m) - F|
    requires |Listed(Slots(m) - F, m)| == |Slots(m) - F|
    requires offset / 1024 == Listed(Slots(m) - F, m)[first]
    requires Dealloc(Canonical(F, m), num, offset) == Some(p)
    ensures Partition(p, m) <==> num <= |Slots(m) - F|
  {
    var B := Slots(m) - F;
    if num > |B| {
      DeallocToTheEnd(F, m, num, first, offset);
      EndSizes(F, m, first, num);
      LostIsNoPartition(Lowest(F, m, m - num) + Freed(B, m, first, |B|), Lowest(B, m, first), m);
    } else {
      DeallocMoves(F, m, num, first, offset);
      if first >= num {
        KeptAsItWas(F, m, num, first);
        CanonicalPartition(F, m);
      } else if first == 0 {
        DeallocLowest(F, m, num, offset);
        LowestIs(B, m, num);
        CanonicalPartition(F + Lowest(B, m, num), m);
      } else {
        MiddleKeepsPartition(F, m, num, first, p);
      }
    }
  }

  // ---------------------------------------------------------------- a run in which both go wrong

  /** A request for one slot takes x, the lowest free one. */
  lemma AllocOne(F: set<int>, x: nat, H: set<int>, m: nat)
    requires F <= Slots(m) && x in F && (forall y :: y in F ==> x <= y) && H == F - {x}
    ensures Do(Canonical(F, m), AllocOp(1)) == Canonical(H, m)
  {
    var g := x - 1;
    assert x in Slots(m);
    assert forall y :: y in Group(g, 1) <==> y in {x};
    assert Group(g, 1) == {x} && Group(g, 1) <= F;
    LowestIsGroup(F, g, 1, m);
    AllocTakesLowest(F, m, 1);
  }

  /** With slots 1 to n busy, a release of n from the lowest frees them. */
  lemma FreeFront(F: set<int>, n: nat, H: set<int>, m: nat)
    requires F <= Slots(m) && 1 <= n <= m && Group(0, n) !! F && H == F + Group(0, n)
    ensures Dealloc(Canonical(F, m), n, 1024) == Some(Canonical(H, m))
    ensures Allowed(Canonical(F, m), FreeLowestOp(n)) && Do(Canonical(F, m), FreeLowestOp(n)) == Canonical(H, m)
  {
    var B := Slots(m) - F;
    assert Group(0, n) <= B;
    LowestIsGroup(B, 0, n, m);
    CanonIs(B, m - |B|, m);
    ListedPositive(B, m);
    DeallocLowest(F, m, n, 1024);
    assert Canon(B, m)[0] == Listed(B, m)[0] == 1 && Canon(B, m)[n - 1] == Listed(B, m)[n - 1];
  }

  /** The slots above k. */
  ghost function Above(k: nat, m: nat): set<int> {
    Slots(m) - Group(0, k)
  }

  lemma AboveTaken(k: nat, m: nat)
    requires k < m
    ensures Do(Canonical(Above(k, m), m), AllocOp(1)) == Canonical(Above(k + 1, m), m)
  {
    assert Above(k + 1, m) == Above(k, m) - {k + 1};
    AllocOne(Above(k, m), k + 1, Above(k + 1, m), m);
  }

  /** k requests for one slot. */
  function Ones(k: nat): seq<Op> {
    if k == 0 then [] else [AllocOp(1)] + Ones(k - 1)
  }

  lemma RunCons(p: Pools, op: Op, ops: seq<Op>, q: Pools)
    requires |p.free| == |p.busy| && Allowed(p, op) && q == Do(p, op) && LegalRun(q, ops)
    ensures LegalRun(p, [op] + ops) && Run(p, [op] + ops) == Run(q, ops)
  {
    assert ([op] + ops)[1..] == ops;
  }

  lemma OneMore(p: Pools, q: Pools, k: nat, ops: seq<Op>, r: Pools)
    requires |p.free| == |p.busy| && Allowed(p, AllocOp(1)) && q == Do(p, AllocOp(1)) && k > 0
    requires LegalRun(q, Ones(k - 1) + ops) && Run(q, Ones(k - 1) + ops) == r
    ensures LegalRun(p, Ones(k) + ops) && Run(p, Ones(k) + ops) == r
  {
    RunCons(p, AllocOp(1), Ones(k - 1) + ops, q);
    assert [AllocOp(1)] + (Ones(k - 1) + ops) == Ones(k) + ops;
  }

  /** After k requests for one slot, with the lowest j taken before, ops lead to r. */
  ghost predicate OnesLeadTo(j: nat, k: nat, m: nat, ops: seq<Op>, r: Pools) {
    var p := Canonical(Above(j, m), m);
    LegalRun(p, Ones(k) + ops) && Run(p, Ones(k) + ops) == r
  }

  lemma {:induction false} RunOnes(j: nat, k: nat, m: nat, ops: seq<Op>, r: Pools)
    requires j + k <= m && OnesLeadTo(j + k, 0, m, ops, r)
    ensures OnesLeadTo(j, k, m, ops, r)
    decreases k
  {
    if k > 0 {
      RunOnes(j + 1, k - 1, m, ops, r);
      AboveTaken(j, m);
      OneMore(Canonical(Above(j, m), m), Canonical(Above(j + 1, m), m), k, ops, r);
    }
  }

  /** Allocating one slot three times and freeing the first leaves slots 2 and 3 busy. */
  lemma TwoAndThreeBusy(m: nat)
    requires m >= 4
    ensures var ops := Ones(3) + [FreeLowestOp(1)];
            LegalRun(Fresh(m), ops) && Run(Fresh(m), ops) == Canonical(Slots(m) - {2, 3}, m)
  {
    var p, free := Canonical(Above(3, m), m), FreeLowestOp(1);
    FreshIsCanonical(m);
    assert Above(0, m) == Slots(m);
    FirstFreed(m);
    RunCons(p, free, [], Canonical(Slots(m) - {2, 3}, m));
    assert [free] + [] == [free] && Ones(0) + [free] == [free];
    RunOnes(0, 3, m, [free], Canonical(Slots(m) - {2, 3}, m));
  }

  lemma FirstFreed(m: nat)
    requires m >= 4
    ensures Allowed(Canonical(Above(3, m), m), FreeLowestOp(1))
    ensures Do(Canonical(Above(3, m), m), FreeLowestOp(1)) == Canonical(Slots(m) - {2, 3}, m)
  {
    var F := Slots(m) - {2, 3};
    assert F == Above(3, m) + Group(0, 1);
    FreeFront(Above(3, m), 1, F, m);
  }

  /** From there a request for two slots returns 1 and 4, which are not in sequence. */
  lemma ScatteredBlock(m: nat)
    requires m >= 4
    ensures var F := Slots(m) - {2, 3};
            Alloc(Canonical(F, m), 2) == Allocation(Some(1024), Canonical(F - {1, 4}, m))
    ensures forall g: nat :: Group(g, 2) != {1, 4}
  {
    var F, T: set<int> := Slots(m) - {2, 3}, {1, 4};
    assert T <= F && |T| == 2;
    SubsetSize(T, F);
    LowerHalf(F, T, m);
    AllocTakesLowest(F, m, 2);
    BlockEnds(F, m, 2);
    forall g: nat ensures Group(g, 2) != T {
      assert g + 1 in Group(g, 2) && g + 2 in Group(g, 2);
    }
  }

  /** Giving that block back, although its lowest slot is the lowest live one, frees slots 1 and 2:
      slot 2 is another block's, and slot 4 stays busy. */
  lemma ScatteredBlockTornApart(m: nat)
    requires m >= 4
    ensures var F := Slots(m) - {2, 3} - {1, 4};
            && Dealloc(Canonical(F, m), 2, 1024) == Some(Canonical(F + {1, 2}, m))
            && Canonical(F + {1, 2}, m) != Canonical(F + {1, 4}, m)
  {
    var F := Slots(m) - {2, 3} - {1, 4};
    assert Group(0, 2) == {1, 2};
    FreeFront(F, 2, F + {1, 2}, m);
    assert 2 in F + {1, 2} && 2 !in F + {1, 4};
    if Canonical(F + {1, 2}, m) == Canonical(F + {1, 4}, m) {
      CanonInjective(F + {1, 2}, F + {1, 4}, m);
    }
  }

  // ---------------------------------------------------------------- a block released in the middle

  /** A request for one slot and one for two: the second block is slots 2 and 3, at offset 2048. */
  lemma BlockInTheMiddle(m: nat)
    requires m >= 3
    ensures var ops := Ones(1) + [AllocOp(2)];
            LegalRun(Fresh(m), ops) && Run(Fresh(m), ops) == Canonical(Slots(m) - {1, 2, 3}, m)
    ensures Alloc(Run(Fresh(m), Ones(1)), 2) == Allocation(Some(2048), Canonical(Slots(m) - {1, 2, 3}, m))
  {
    FreshIsCanonical(m);
    assert Above(0, m) == Slots(m);
    var p, q, two := Canonical(Above(1, m), m), Canonical(Slots(m) - {1, 2, 3}, m), AllocOp(2);
    SecondTaken(m);
    assert Ones(0) + [] == [];
    RunOnes(0, 1, m, [], p);
    assert Ones(1) + [] == Ones(1);
    RunCons(p, two, [], q);
    assert [two] + [] == [two] && Ones(0) + [two] == [two];
    RunOnes(0, 1, m, [two], q);
  }

  lemma SecondTaken(m: nat)
    requires m >= 3
    ensures Alloc(Canonical(Above(1, m), m), 2) == Allocation(Some(2048), Canonical(Slots(m) - {1, 2, 3}, m))
  {
    var F := Above(1, m);
    assert F - Group(1, 2) == Slots(m) - {1, 2, 3};
    LowestTaken(F, 1, 2, m);
  }

  /** Slots 1 to 3, as busy_pool lists them. */
  lemma ThreeListed(B: set<int>, s: seq<int>, m: nat)
    requires m >= 3 && B == {1, 2, 3} && |s| == 3 && s[0] == 1 && s[1] == 2 && s[2] == 3
    ensures B <= Slots(m) && |B| == 3 && Listed(B, m) == s
  {
    ListedIs(B, m);
    forall x ensures x in B <==> x in Elements(s) {
      assert x in s <==> x == s[0] || x == s[1] || x == s[2];
    }
    assert Elements(s) == B;
    SameElements(Listed(B, m), s);
  }

  lemma ThreeCleared(B: set<int>, s: seq<int>, m: nat)
    requires m >= 3 && B <= Slots(m) && |B| == 3 && Listed(B, m) == s && |s| == 3 && s[0] == 1 && s[2] == 3
    ensures Cleared(Canon(B, m), 1, 2) == [1, 0, 3] + Zeros(m - 3)
  {
    CanonIs(B, m - 3, m);
    assert Canon(B, m) == s + Zeros(m - 3);
    assert Canon(B, m)[2..] == [3] + Zeros(m - 3);
  }

  lemma SecondFreed(B: set<int>, s: seq<int>, m: nat)
    requires Listed(B, m) == s && |s| == 3 && s[1] == 2
    ensures Freed(B, m, 1, 2) == {2}
  {
    assert s[1..2] == [2];
  }

  lemma GapNotGathered(c: seq<int>, m: nat)
    requires m >= 3 && c == [1, 0, 3] + Zeros(m - 3)
    ensures Compact(c) != Gathered(c)
  {
    CompactGathersIff(c);
    assert c[0] != 0 && c[1] == 0 && c[2] != 0;
  }

  /** Releasing that block, by its own offset and size, frees slot 2 alone; move_array finds a zero
      between live slots in busy_pool and leaves it there. Both pools together still hold every
      slot once. */
  lemma MiddleBlockReleased(m: nat, p: Pools)
    requires m >= 3 && Dealloc(Canonical(Slots(m) - {1, 2, 3}, m), 2, 2048) == Some(p)
    ensures p.free == Canon(Slots(m) - {1, 3}, m) && p.busy == [1, 0, 3] + Zeros(m - 3)
    ensures Compact(p.busy) != Gathered(p.busy)
    ensures !exists G: set<int> :: G <= Slots(m) && p == Canonical(G, m)
    ensures Partition(p, m)
  {
    var F, B := Slots(m) - {1, 2, 3}, {1, 2, 3};
    assert Slots(m) - F == B;
    var s := [1, 2, 3];
    ThreeListed(B, s, m);
    ThreeCleared(B, s, m);
    SecondFreed(B, s, m);
    DeallocMoves(F, m, 2, 1, 2048);
    assert F + {2} == Slots(m) - {1, 3};
    GapNotGathered(p.busy, m);
    DeallocStaysCanonicalIff(F, m, 2, 1, 2048);
    DeallocKeepsPartitionIff(F, m, 2, 1, 2048, p);
  }
}
