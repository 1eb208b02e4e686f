/** asgard.c: what the two slot pools hold, and what allocating and freeing does to them. */
module SlotPools {
  import opened CTypes
  import opened CountingSort
  import opened RadixSort

  /** Contents of free_pool and busy_pool. Slot numbers start at 1; 0 marks an unused entry. */
  datatype Pools = Pools(free: seq<int>, busy: seq<int>)

  // ---------------------------------------------------------------- shm_alloc, shm_dealloc on contents

  function Reversed(s: seq<int>): (r: seq<int>)
    ensures |r| == |s| && forall i :: 0 <= i < |s| ==> r[i] == s[|s| - 1 - i]
  {
    seq(|s|, i requires 0 <= i < |s| => s[|s| - 1 - i])
  }

  datatype Allocation = Allocation(offset: Option<int>, pools: Pools)

  predicate Enough(free: seq<int>, num: nat)
    requires num <= |free|
  {
    forall i :: 0 <= i < num ==> free[i] != 0
  }

  /** shm_alloc; its assertion demands that num is no more than there are slots. */
  function Alloc(p: Pools, num: nat): (a: Allocation)
    requires num <= |p.free| == |p.busy| && p.free != []
    ensures |a.pools.free| == |a.pools.busy| == |p.free|
  {
    var m := |p.free|;
    if !Enough(p.free, num) then
      Allocation(None, p)
    else
      Allocation(Some(p.free[0] * 1024),
                 Pools(Compact(Zeros(num) + p.free[num..]),
                       Compact(Sort(p.busy[..m - num] + Reversed(p.free[..num])))))
  }

  function IndexOf(s: seq<int>, x: int): (i: nat)
    ensures i <= |s| && (i < |s| ==> s[i] == x) && forall j :: 0 <= j < i ==> s[j] != x
  {
    if s == [] || s[0] == x then 0 else
      var i := IndexOf(s[1..], x);
      assert forall j :: 0 < j <= i ==> s[j] == s[1..][j - 1];
      i + 1
  }

  /** busy_pool after entries first..num are cleared. */
  function Cleared(busy: seq<int>, first: nat, num: nat): (r: seq<int>)
    requires first <= num <= |busy|
    ensures |r| == |busy|
  {
    busy[..first] + Zeros(num - first) + busy[num..]
  }

  /** free_pool after those entries are written from its end down. */
  function BackFilled(free: seq<int>, busy: seq<int>, first: nat, num: nat): (r: seq<int>)
    requires first <= num <= |busy| == |free|
    ensures |r| == |free|
  {
    free[..|free| - num] + Reversed(busy[first..num]) + free[|free| - first..]
  }

  /** The slot an offset lies in, by C's division. */
  function SlotOf(offset: int): int {
    if offset < 0 then -(-offset / 1024) else offset / 1024
  }

  /** shm_dealloc; None when the assertion that the block is busy fails, or the loop leaves the
      arrays. */
  function Dealloc(p: Pools, num: nat, offset: int): (r: Option<Pools>)
    requires |p.free| == |p.busy|
    ensures r.Some? ==> |r.value.free| == |r.value.busy| == |p.free|
  {
    var first := IndexOf(p.busy, SlotOf(offset));
    if first == |p.busy| || num > |p.busy| then None
    else if first >= num then Some(Pools(Compact(Sort(p.free)), Compact(p.busy)))
    else Some(Pools(Compact(Sort(BackFilled(p.free, p.busy, first, num))), Compact(Cleared(p.busy, first, num))))
  }

  // ---------------------------------------------------------------- pools as a function of the free set

  /** The members of S from lo up to but excluding hi, ascending. */
  function Ascending(S: set<int>, lo: int, hi: int): (r: seq<int>)
    ensures lo <= hi ==> |r| <= hi - lo
    decreases hi - lo
  {
    if lo >= hi then []
    else if lo in S then [lo] + Ascending(S, lo + 1, hi)
    else Ascending(S, lo + 1, hi)
  }

  function UpTo(lo: int, n: nat): set<int> {
    if n == 0 then {} else UpTo(lo, n - 1) + {lo + n}
  }

  lemma {:induction false} UpToIs(lo: int, n: nat)
    ensures forall i :: i in UpTo(lo, n) <==> lo < i <= lo + n
    ensures |UpTo(lo, n)| == n
  {
    if n > 0 {
      UpToIs(lo, n - 1);
    }
  }

  /** S is the n numbers above lo. */
  ghost predicate Consecutive(S: set<int>, lo: int, n: nat) {
    |S| == n && forall i :: i in S <==> lo < i <= lo + n
  }

  ghost function Slots(m: nat): (S: set<int>)
    ensures forall i :: i in S <==> 1 <= i <= m
    ensures |S| == m
  {
    UpToIs(0, m);
    assert Consecutive(UpTo(0, m), 0, m);
    var S :| Consecutive(S, 0, m);
    S
  }

  function Elements(s: seq<int>): set<int> {
    set x | x in s
  }

  function Listed(S: set<int>, m: nat): (r: seq<int>)
    ensures |r| <= m
  {
    Ascending(S, 1, m + 1)
  }

  /** A pool array: the slots of S ascending, then zeros. */
  function Canon(S: set<int>, m: nat): (r: seq<int>)
    ensures |r| == m
  {
    Listed(S, m) + Zeros(m - |Listed(S, m)|)
  }

  ghost function Canonical(F: set<int>, m: nat): (p: Pools)
    ensures |p.free| == |p.busy| == m
  {
    Pools(Canon(F, m), Canon(Slots(m) - F, m))
  }

  /** The num lowest slots of S. */
  function Lowest(S: set<int>, m: nat, num: nat): set<int> {
    var s := Listed(S, m);
    Elements(if num <= |s| then s[..num] else s)
  }

  lemma {:induction false} AscendingIs(S: set<int>, lo: int, hi: int)
    ensures forall x :: x in Ascending(S, lo, hi) <==> x in S && lo <= x < hi
    ensures StrictlyAscending(Ascending(S, lo, hi))
    decreases hi - lo
  {
    if lo < hi {
      AscendingIs(S, lo + 1, hi);
      var t := Ascending(S, lo + 1, hi);
      forall j | 0 <= j < |t| ensures lo < t[j] {
        var x := t[j];
        assert x in t;
      }
    }
  }

  lemma {:induction false} AscendingSplit(S: set<int>, lo: int, mid: int, hi: int)
    requires lo <= mid <= hi
    ensures Ascending(S, lo, hi) == Ascending(S, lo, mid) + Ascending(S, mid, hi)
    decreases mid - lo
  {
    if lo < mid {
      AscendingSplit(S, lo + 1, mid, hi);
      if lo in S {
        JoinLeft(lo, Ascending(S, lo + 1, mid), Ascending(S, mid, hi));
      }
    }
  }

  ghost predicate StrictlyAscending(s: seq<int>) {
    forall i, j :: 0 <= i < j < |s| ==> s[i] < s[j]
  }

  lemma ElementsSnoc(t: seq<int>, x: int)
    ensures Elements(t + [x]) == Elements(t) + {x}
  {
  }

  lemma {:induction false} DistinctSize(s: seq<int>)
    requires StrictlyAscending(s)
    ensures multiset(s) == multiset(Elements(s))
    ensures |Elements(s)| == |s|
  {
    if s != [] {
      var n := |s| - 1;
      var t, x := s[..n], s[n];
      assert s == t + [x];
      DistinctSize(t);
      ElementsSnoc(t, x);
      assert x !in Elements(t);
    }
  }

  lemma SubsetSize(A: set<int>, B: set<int>)
    requires A <= B
    ensures |A| <= |B| && (|A| == |B| ==> A == B)
  {
    assert B == A + (B - A);
  }

  /** A strictly ascending sequence is determined by its elements. */
  lemma SameElements(s: seq<int>, t: seq<int>)
    requires StrictlyAscending(s) && StrictlyAscending(t) && Elements(s) == Elements(t)
    ensures s == t
  {
    DistinctSize(s);
    DistinctSize(t);
    SortedPermutationUnique(s, t);
  }

  lemma SplitAscending(s: seq<int>, n: nat)
    requires StrictlyAscending(s) && n <= |s|
    ensures StrictlyAscending(s[..n]) && StrictlyAscending(s[n..])
    ensures Elements(s[n..]) == Elements(s) - Elements(s[..n])
    ensures Elements(s[..n]) <= Elements(s)
    ensures forall x, y :: x in Elements(s[..n]) && y in Elements(s[n..]) ==> x < y
  {
    var u, v := s[..n], s[n..];
    assert s == u + v;
    forall x, y | x in u && y in v ensures x < y {
      var i :| 0 <= i < |u| && u[i] == x;
      var j :| 0 <= j < |v| && v[j] == y;
      assert s[i] < s[n + j];
    }
  }

  lemma ListedIs(S: set<int>, m: nat)
    requires S <= Slots(m)
    ensures StrictlyAscending(Listed(S, m))
    ensures Elements(Listed(S, m)) == S
    ensures multiset(Listed(S, m)) == multiset(S)
    ensures |Listed(S, m)| == |S|
  {
    AscendingIs(S, 1, m + 1);
    forall x ensures x in S <==> x in Elements(Listed(S, m)) {
      assert x in S ==> x in Slots(m);
    }
    DistinctSize(Listed(S, m));
  }

  lemma LowestIs(S: set<int>, m: nat, num: nat)
    requires S <= Slots(m) && num <= |S|
    ensures Lowest(S, m, num) <= S && |Lowest(S, m, num)| == num
    ensures |Listed(S, m)| == |S|
    ensures Listed(S, m)[..num] == Listed(Lowest(S, m, num), m)
    ensures Listed(S, m)[num..] == Listed(S - Lowest(S, m, num), m)
    ensures forall x, y :: x in Lowest(S, m, num) && y in S - Lowest(S, m, num) ==> x < y
  {
    ListedIs(S, m);
    var s, T := Listed(S, m), Lowest(S, m, num);
    SplitAscending(s, num);
    DistinctSize(s[..num]);
    ListedIs(T, m);
    SameElements(s[..num], Listed(T, m));
    ListedIs(S - T, m);
    SameElements(s[num..], Listed(S - T, m));
  }

  // ---------------------------------------------------------------- one allocation, one release

  lemma CompactPadded(n: nat, t: seq<int>, z: nat)
    requires t != [] ==> t[0] != 0
    ensures Compact(Zeros(n) + t + Zeros(z)) == t + Zeros(n + z)
  {
    var s := Zeros(n) + t + Zeros(z);
    if t != [] {
      assert s[n] == t[0];
      assert LeadingZeros(s) == n;
      assert s[n..] == t + Zeros(z);
    } else {
      assert LeadingZeros(s) == |s|;
    }
  }

  lemma ListedPositive(S: set<int>, m: nat)
    requires S <= Slots(m)
    ensures forall i :: 0 <= i < |Listed(S, m)| ==> Listed(S, m)[i] > 0
  {
    ListedIs(S, m);
    var s := Listed(S, m);
    forall i | 0 <= i < |s| ensures s[i] > 0 {
      assert s[i] in Elements(s);
    }
  }

  lemma CanonIs(S: set<int>, z: nat, m: nat)
    requires S <= Slots(m) && |S| + z == m
    ensures Canon(S, m) == Listed(S, m) + Zeros(z) && |Listed(S, m)| == |S|
  {
    ListedIs(S, m);
  }

  /** Sorting and compacting any arrangement of the slots of S among zeros gives the pool of S. */
  lemma SortCanon(s: seq<int>, S: set<int>, z: nat, m: nat)
    requires S <= Slots(m) && |S| + z == m
    requires multiset(s) == multiset(S) + multiset(Zeros(z))
    ensures Compact(Sort(s)) == Canon(S, m)
  {
    ListedIs(S, m);
    ListedPositive(S, m);
    var t := Zeros(z) + Listed(S, m);
    assert Sorted(t);
    SortSorts(s);
    SortedPermutationUnique(Sort(s), t);
    CompactPadded(z, Listed(S, m), 0);
    assert t + Zeros(0) == t;
  }

  lemma PoolSizes(F: set<int>, m: nat)
    requires F <= Slots(m)
    ensures |F| + |Slots(m) - F| == m
  {
    assert F + (Slots(m) - F) == Slots(m);
  }

  lemma EnoughIff(F: set<int>, m: nat, num: nat)
    requires F <= Slots(m) && num <= m
    ensures Enough(Canon(F, m), num) <==> num <= |F|
  {
    ListedIs(F, m);
    ListedPositive(F, m);
    if num > |F| {
      assert Canon(F, m)[|F|] == 0;
    }
  }

  lemma MultisetOfUnion(A: set<int>, B: set<int>)
    requires A !! B
    ensures multiset(A + B) == multiset(A) + multiset(B)
  {
  }

  lemma ReversedBag(s: seq<int>)
    ensures multiset(Reversed(s)) == multiset(s)
  {
    if s != [] {
      var n := |s| - 1;
      ReversedBag(s[..n]);
      assert s == s[..n] + [s[n]];
      assert Reversed(s) == [s[n]] + Reversed(s[..n]);
    }
  }

  lemma ZerosJoin(a: nat, b: nat)
    ensures Zeros(a) + Zeros(b) == Zeros(a + b)
  {
  }

  lemma BagOfParts(s: seq<int>, a: nat, u: seq<int>, c: nat)
    ensures multiset(s + Zeros(a) + Reversed(u) + Zeros(c)) == multiset(s) + multiset(u) + multiset(Zeros(a + c))
  {
    ReversedBag(u);
    ZerosJoin(a, c);
    assert multiset(Zeros(a) + Zeros(c)) == multiset(Zeros(a)) + multiset(Zeros(c));
  }

  /** Writing the slots u of T into the zeros of S's pool, then sorting and compacting. */
  lemma PoolGains(S: set<int>, T: set<int>, u: seq<int>, a: nat, c: nat, m: nat)
    requires S <= Slots(m) && T <= Slots(m) && S !! T
    requires multiset(u) == multiset(T) && |S| + |T| + a + c == m
    ensures Compact(Sort(Listed(S, m) + Zeros(a) + Reversed(u) + Zeros(c))) == Canon(S + T, m)
  {
    ListedIs(S, m);
    BagOfParts(Listed(S, m), a, u, c);
    MultisetOfUnion(S, T);
    assert |S + T| == |S| + |T|;
    SortCanon(Listed(S, m) + Zeros(a) + Reversed(u) + Zeros(c), S + T, a + c, m);
  }

  lemma MoveIntoPool(T: set<int>, B: set<int>, m: nat, num: nat)
    requires T <= Slots(m) && B <= Slots(m) && T !! B
    requires |T| == num && num + |B| <= m
    ensures Compact(Sort(Canon(B, m)[..m - num] + Reversed(Listed(T, m)))) == Canon(B + T, m)
  {
    ListedIs(T, m);
    var z := m - num - |B|;
    CanonIs(B, z + num, m);
    PoolGains(B, T, Listed(T, m), z, 0, m);
    var w := Listed(B, m) + Zeros(z) + Reversed(Listed(T, m));
    assert w + Zeros(0) == w;
    assert Canon(B, m)[..m - num] == Listed(B, m) + Zeros(z);
  }

  lemma DropFromPadded(s: seq<int>, num: nat, z: nat)
    requires num <= |s|
    ensures Zeros(num) + (s + Zeros(z))[num..] == Zeros(num) + s[num..] + Zeros(z)
    ensures (s + Zeros(z))[..num] == s[..num]
  {
  }

  lemma TakeFront(F: set<int>, m: nat, num: nat)
    requires F <= Slots(m) && num <= |F|
    ensures num <= m && Compact(Zeros(num) + Canon(F, m)[num..]) == Canon(F - Lowest(F, m, num), m)
    ensures Canon(F, m)[..num] == Listed(Lowest(F, m, num), m)
  {
    var R := F - Lowest(F, m, num);
    LowestIs(F, m, num);
    PoolSizes(F, m);
    var z := m - |F|;
    CanonIs(F, z, m);
    CanonIs(R, num + z, m);
    ListedPositive(R, m);
    DropFromPadded(Listed(F, m), num, z);
    CompactPadded(num, Listed(R, m), z);
  }

  lemma Moved(F: set<int>, T: set<int>, U: set<int>)
    requires T <= F <= U
    ensures U - F + T == U - (F - T)
    ensures F !! U - F && T !! U - F
  {
  }

  lemma AllocParts(free: seq<int>, busy: seq<int>, m: nat, num: nat, taken: seq<int>, f: seq<int>, b: seq<int>)
    requires 1 <= num <= m == |free| == |busy| && Enough(free, num)
    requires free[..num] == taken
    requires Compact(Zeros(num) + free[num..]) == f
    requires Compact(Sort(busy[..m - num] + Reversed(taken))) == b
    ensures Alloc(Pools(free, busy), num) == Allocation(Some(free[0] * 1024), Pools(f, b))
  {
  }

  lemma AllocTakesLowest(F: set<int>, m: nat, num: nat)
    requires F <= Slots(m) && 1 <= num <= |F|
    ensures num <= m && |Listed(F, m)| == |F|
    ensures Alloc(Canonical(F, m), num) ==
            Allocation(Some(Listed(F, m)[0] * 1024), Canonical(F - Lowest(F, m, num), m))
  {
    var T, B := Lowest(F, m, num), Slots(m) - F;
    PoolSizes(F, m);
    ListedIs(F, m);
    LowestIs(F, m, num);
    Moved(F, T, Slots(m));
    EnoughIff(F, m, num);
    TakeFront(F, m, num);
    MoveIntoPool(T, B, m, num);
    AllocParts(Canon(F, m), Canon(B, m), m, num, Listed(T, m), Canon(F - T, m), Canon(B + T, m));
  }

  /** An allocation takes the num lowest free slots, or changes nothing when fewer are free. */
  lemma AllocCanonical(F: set<int>, m: nat, num: nat)
    requires F <= Slots(m) && 1 <= num <= m
    ensures num <= |F| ==>
              && |Listed(F, m)| == |F|
              && Alloc(Canonical(F, m), num) ==
                 Allocation(Some(Listed(F, m)[0] * 1024), Canonical(F - Lowest(F, m, num), m))
    ensures num > |F| ==> Alloc(Canonical(F, m), num) == Allocation(None, Canonical(F, m))
  {
    if num <= |F| {
      AllocTakesLowest(F, m, num);
    } else {
      EnoughIff(F, m, num);
    }
  }

  /** The slots shm_dealloc moves: entries first..num of busy_pool, first being the block's place. */
  function Freed(B: set<int>, m: nat, first: nat, num: nat): set<int> {
    var s := Listed(B, m);
    if first <= num <= |s| then Elements(s[first..num]) else {}
  }

  lemma FreedIs(B: set<int>, m: nat, first: nat, num: nat)
    requires B <= Slots(m) && first <= num <= |B|
    ensures |Listed(B, m)| == |B|
    ensures Freed(B, m, first, num) <= B && |Freed(B, m, first, num)| == num - first
    ensures multiset(Listed(B, m)[first..num]) == multiset(Freed(B, m, first, num))
  {
    ListedIs(B, m);
    var s := Listed(B, m);
    var u := s[first..num];
    assert forall i :: 0 <= i < |u| ==> u[i] == s[first + i];
    DistinctSize(u);
    forall x | x in u ensures x in s {
    }
    assert Elements(u) <= Elements(s);
  }

  lemma IndexInPool(B: set<int>, m: nat, first: nat)
    requires B <= Slots(m) && first < |B|
    ensures |Listed(B, m)| == |B| && IndexOf(Canon(B, m), Listed(B, m)[first]) == first
  {
    ListedIs(B, m);
    var s, x := Listed(B, m), Listed(B, m)[first];
    assert Canon(B, m)[first] == x;
    assert forall i :: 0 <= i < first ==> Canon(B, m)[i] == s[i] < x;
  }

  lemma BackFilledIs(s: seq<int>, b: seq<int>, first: nat, num: nat, a: nat)
    requires first <= num && |b| == |s| + a + num
    ensures BackFilled(s + Zeros(a + num), b, first, num) == s + Zeros(a) + Reversed(b[first..num]) + Zeros(first)
  {
  }

  lemma BackFilledParts(F: set<int>, D: set<int>, busy: seq<int>, first: nat, num: nat, a: nat, m: nat)
    requires F <= Slots(m) && D <= Slots(m) && F !! D
    requires |F| + a + num == m == |busy| && first <= num && |D| == num - first
    requires multiset(busy[first..num]) == multiset(D)
    ensures Compact(Sort(BackFilled(Canon(F, m), busy, first, num))) == Canon(F + D, m)
  {
    CanonIs(F, a + num, m);
    BackFilledIs(Listed(F, m), busy, first, num, a);
    PoolGains(F, D, busy[first..num], a, first, m);
  }

  lemma BackFilledCanon(F: set<int>, m: nat, first: nat, num: nat)
    requires F <= Slots(m) && first < num <= |Slots(m) - F|
    ensures num <= m
    ensures Compact(Sort(BackFilled(Canon(F, m), Canon(Slots(m) - F, m), first, num)))
         == Canon(F + Freed(Slots(m) - F, m, first, num), m)
  {
    var B := Slots(m) - F;
    PoolSizes(F, m);
    FreedIs(B, m, first, num);
    assert Canon(B, m)[first..num] == Listed(B, m)[first..num];
    BackFilledParts(F, Freed(B, m, first, num), Canon(B, m), first, num, m - |F| - num, m);
  }

  lemma PoolIsStable(S: set<int>, m: nat)
    requires S <= Slots(m)
    ensures Compact(Sort(Canon(S, m))) == Canon(S, m) && Compact(Canon(S, m)) == Canon(S, m)
  {
    ListedIs(S, m);
    ListedPositive(S, m);
    PoolSizes(S, m);
    SortCanon(Canon(S, m), S, m - |S|, m);
    CompactPadded(0, Listed(S, m), m - |S|);
    assert Zeros(0) + Listed(S, m) == Listed(S, m);
  }

  lemma DeallocParts(free: seq<int>, busy: seq<int>, m: nat, num: nat, offset: nat, f: seq<int>, b: seq<int>)
    requires 1 <= num <= m == |free| == |busy| && IndexOf(busy, offset / 1024) == 0
    requires Compact(Sort(BackFilled(free, busy, 0, num))) == f
    requires Compact(Zeros(num) + busy[num..]) == b
    ensures Dealloc(Pools(free, busy), num, offset) == Some(Pools(f, b))
  {
    assert Cleared(busy, 0, num) == Zeros(num) + busy[num..];
  }

  lemma DeallocLowest(F: set<int>, m: nat, num: nat, offset: nat)
    requires F <= Slots(m) && 1 <= num <= |Slots(m) - F|
    requires |Listed(Slots(m) - F, m)| == |Slots(m) - F|
    requires offset / 1024 == Listed(Slots(m) - F, m)[0]
    ensures num <= m && Dealloc(Canonical(F, m), num, offset) == Some(Canonical(F + Lowest(Slots(m) - F, m, num), m))
  {
    var B := Slots(m) - F;
    var T := Lowest(B, m, num);
    assert Freed(B, m, 0, num) == T by {
      assert Listed(B, m)[0..num] == Listed(B, m)[..num];
    }
    IndexInPool(B, m, 0);
    BackFilledCanon(F, m, 0, num);
    TakeFront(B, m, num);
    LowestIs(B, m, num);
    DeallocParts(Canon(F, m), Canon(B, m), m, num, offset, Canon(F + T, m), Canon(B - T, m));
    assert Slots(m) - (F + T) == B - T;
  }

  lemma ClearedInside(B: set<int>, m: nat, first: nat, num: nat)
    requires B <= Slots(m) && 0 < first <= num <= m && first < |B|
    ensures Compact(Cleared(Canon(B, m), first, num)) == Cleared(Canon(B, m), first, num)
  {
    ListedIs(B, m);
    ListedPositive(B, m);
    var c := Cleared(Canon(B, m), first, num);
    assert c[0] == Listed(B, m)[0] != 0;
    assert LeadingZeros(c) == 0;
    assert c[0..] == c;
  }

  /** Freeing a live block, wherever in busy_pool it is: which slots move, and what is left of
      busy_pool. Past place 0 the cleared entries stay zeros between the live slots. */
  lemma DeallocMoves(F: set<int>, m: nat, num: nat, first: nat, offset: nat)
    requires F <= Slots(m) && first < |Slots(m) - F| && 1 <= num <= |Slots(m) - F|
    requires |Listed(Slots(m) - F, m)| == |Slots(m) - F|
    requires offset / 1024 == Listed(Slots(m) - F, m)[first]
    ensures num <= m && Dealloc(Canonical(F, m), num, offset).Some?
    ensures Dealloc(Canonical(F, m), num, offset).value.free == Canon(F + Freed(Slots(m) - F, m, first, num), m)
    ensures Dealloc(Canonical(F, m), num, offset).value.busy ==
            if first >= num then Canon(Slots(m) - F, m)
            else if first == 0 then Canon(Slots(m) - F - Lowest(Slots(m) - F, m, num), m)
            else Cleared(Canon(Slots(m) - F, m), first, num)
  {
    var B := Slots(m) - F;
    PoolSizes(F, m);
    IndexInPool(B, m, first);
    if first >= num {
      PoolIsStable(F, m);
      PoolIsStable(B, m);
      assert Listed(B, m)[first..first] == [];
      assert Freed(B, m, first, num) == {};
      assert F + {} == F;
    } else {
      BackFilledCanon(F, m, first, num);
      if first == 0 {
        DeallocLowest(F, m, num, offset);
        assert Slots(m) - (F + Lowest(B, m, num)) == B - Lowest(B, m, num);
      } else {
        ClearedInside(B, m, first, num);
      }
    }
  }

  // ---------------------------------------------------------------- whatever the pools hold

  /** Slot k is the 1024 bytes from offset k * 1024 on; below offset 0 the division rounds up. */
  lemma SlotOfIs(k: nat, r: nat)
    requires r < 1024
    ensures SlotOf(k * 1024 + r) == k && SlotOf(0 - k * 1024 - r) == 0 - k
  {
  }

  /** Compaction drops the leading zeros and puts as many at the end; everything after the first
      other entry is kept as it is, zeros included. */
  lemma CompactIs(z: nat, t: seq<int>)
    requires t == [] || t[0] != 0
    ensures Compact(Zeros(z) + t) == t + Zeros(z)
  {
    var s := Zeros(z) + t;
    var n := LeadingZeros(s);
    if t != [] {
      assert s[z] == t[0];
    }
    assert n == z || (t == [] && n == |s|);
    assert s[z..] == t;
  }

  lemma CompactBag(s: seq<int>)
    ensures multiset(Compact(s)) == multiset(s)
  {
    var n := LeadingZeros(s);
    assert s == s[..n] + s[n..] && s[..n] == Zeros(n);
  }

  /** Positive and ascending, then zeros. */
  ghost predicate InOrder(s: seq<int>) {
    forall i, j :: 0 <= i < j < |s| && s[j] != 0 ==> 0 < s[i] <= s[j]
  }

  lemma SortedCompacts(s: seq<int>)
    requires Sorted(s) && forall i :: 0 <= i < |s| ==> s[i] >= 0
    ensures InOrder(Compact(s))
  {
    var n, r := LeadingZeros(s), Compact(s);
    forall i, j | 0 <= i < j < |r| && r[j] != 0 ensures 0 < r[i] <= r[j] {
      assert r[j] == s[n + j] && r[i] == s[n + i];
      assert s[n] <= s[n + i] <= s[n + j];
    }
  }

  lemma SortCompacts(s: seq<int>)
    requires forall i :: 0 <= i < |s| ==> s[i] >= 0
    ensures InOrder(Compact(Sort(s))) && multiset(Compact(Sort(s))) == multiset(s)
  {
    SortSorts(s);
    CompactBag(Sort(s));
    forall i | 0 <= i < |s| ensures Sort(s)[i] >= 0 {
      assert Sort(s)[i] in multiset(s);
    }
    SortedCompacts(Sort(s));
  }

  ghost predicate Natural(p: Pools) {
    |p.free| == |p.busy| && forall i :: 0 <= i < |p.free| ==> p.free[i] >= 0 && p.busy[i] >= 0
  }

  /** What shm_alloc does to pools in any state, in order or not: it succeeds exactly when the first
      num entries of free_pool are slots, and then moves just those. */
  lemma AllocAny(p: Pools, num: nat)
    requires Natural(p) && num <= |p.free| && p.free != []
    ensures var a, m := Alloc(p, num), |p.free|;
            && (a.offset.Some? <==> forall i :: 0 <= i < num ==> p.free[i] != 0)
            && (a.offset.None? ==> a.pools == p)
            && (a.offset.Some? ==>
                  && a.offset == Some(p.free[0] * 1024)
                  && multiset(a.pools.busy) == multiset(p.busy[..m - num]) + multiset(p.free[..num])
                  && InOrder(a.pools.busy)
                  && multiset(a.pools.free) == multiset(Zeros(num)) + multiset(p.free[num..])
                  && (num == m || p.free[num] != 0 ==> a.pools.free == p.free[num..] + Zeros(num)))
  {
    var m := |p.free|;
    if Enough(p.free, num) {
      var s := p.busy[..m - num] + Reversed(p.free[..num]);
      ReversedBag(p.free[..num]);
      SortCompacts(s);
      CompactBag(Zeros(num) + p.free[num..]);
      if num == m || p.free[num] != 0 {
        CompactIs(num, p.free[num..]);
      }
    }
  }

  lemma ClearedAt(busy: seq<int>, first: nat, num: nat, k: nat)
    requires first <= num <= |busy| && k < |busy|
    ensures Cleared(busy, first, num)[k] == if first <= k < num then 0 else busy[k]
  {
  }

  lemma BackFilledBag(free: seq<int>, busy: seq<int>, first: nat, num: nat)
    requires first <= num <= |busy| == |free|
    ensures multiset(BackFilled(free, busy, first, num))
         == multiset(free[..|free| - num]) + multiset(busy[first..num]) + multiset(free[|free| - first..])
  {
    ReversedBag(busy[first..num]);
  }

  lemma BackFilledNatural(p: Pools, first: nat, num: nat)
    requires Natural(p) && first <= num <= |p.busy|
    ensures forall i :: 0 <= i < |p.free| ==> BackFilled(p.free, p.busy, first, num)[i] >= 0
  {
  }

  /** shm_dealloc goes through, on pools in any state, exactly when the slot the offset lies in is
      busy and num is no more than there are slots. */
  lemma DeallocWhen(p: Pools, num: nat, offset: int)
    requires |p.free| == |p.busy|
    ensures Dealloc(p, num, offset).Some? <==> SlotOf(offset) in p.busy && num <= |p.busy|
  {
    var first := IndexOf(p.busy, SlotOf(offset));
    if first < |p.busy| {
      assert p.busy[first] == SlotOf(offset);
    }
  }

  /** The place where a slot first stands. */
  ghost predicate FirstPlace(busy: seq<int>, x: int, first: nat) {
    first < |busy| && busy[first] == x && forall i :: 0 <= i < first ==> busy[i] != x
  }

  /** From a place before num it moves the entries from there up to place num, and no others. */
  lemma DeallocAny(p: Pools, num: nat, offset: int, first: nat, q: Pools)
    requires Natural(p) && FirstPlace(p.busy, SlotOf(offset), first) && first < num
    requires Dealloc(p, num, offset) == Some(q)
    ensures num <= |p.busy| && q.busy == Compact(Cleared(p.busy, first, num)) && InOrder(q.free)
    ensures multiset(q.free) == multiset(p.free[..|p.free| - num]) + multiset(p.busy[first..num])
                                + multiset(p.free[|p.free| - first..])
  {
    BackFilledNatural(p, first, num);
    BackFilledBag(p.free, p.busy, first, num);
    SortCompacts(BackFilled(p.free, p.busy, first, num));
  }

  /** From a later place it moves none. */
  lemma DeallocNone(p: Pools, num: nat, offset: int, first: nat, q: Pools)
    requires Natural(p) && FirstPlace(p.busy, SlotOf(offset), first) && first >= num
    requires Dealloc(p, num, offset) == Some(q)
    ensures q.busy == Compact(p.busy) && InOrder(q.free) && multiset(q.free) == multiset(p.free)
  {
    SortCompacts(p.free);
  }
}
