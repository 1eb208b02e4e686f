/** What radix_sort.c promises: sorting, and the stable counting pass it repeats. */
module CountingSort {

  ghost predicate Sorted(s: seq<int>) {
    forall i, j :: 0 <= i < j < |s| ==> s[i] <= s[j]
  }

  function Insert(x: int, s: seq<int>): (r: seq<int>)
    ensures |r| == |s| + 1
  {
    if s == [] || x <= s[0] then [x] + s else [s[0]] + Insert(x, s[1..])
  }

  /** The reference: an insertion sort. */
  function Sort(s: seq<int>): (r: seq<int>)
    ensures |r| == |s|
  {
    if s == [] then [] else Insert(s[0], Sort(s[1..]))
  }

  lemma SortedCons(x: int, s: seq<int>)
    requires Sorted(s) && forall y :: y in multiset(s) ==> x <= y
    ensures Sorted([x] + s)
  {
    forall j | 0 <= j < |s| ensures x <= s[j] {
      assert s[j] in multiset(s);
    }
  }

  lemma {:induction false} InsertPermutes(x: int, s: seq<int>)
    ensures multiset(Insert(x, s)) == multiset{x} + multiset(s)
  {
    if s != [] && x > s[0] {
      InsertPermutes(x, s[1..]);
      assert s == [s[0]] + s[1..];
    }
  }

  lemma {:induction false} InsertSorts(x: int, s: seq<int>)
    requires Sorted(s)
    ensures Sorted(Insert(x, s))
  {
    if s == [] || x <= s[0] {
      SortedCons(x, s);
    } else {
      var t := s[1..];
      InsertSorts(x, t);
      InsertPermutes(x, t);
      forall y | y in multiset(Insert(x, t)) ensures s[0] <= y {
        assert y == x || y in t;
      }
      SortedCons(s[0], Insert(x, t));
    }
  }

  lemma {:induction false} SortSorts(s: seq<int>)
    ensures Sorted(Sort(s))
    ensures multiset(Sort(s)) == multiset(s)
  {
    if s != [] {
      SortSorts(s[1..]);
      InsertSorts(s[0], Sort(s[1..]));
      InsertPermutes(s[0], Sort(s[1..]));
      assert s == [s[0]] + s[1..];
    }
  }

  lemma TailBag(a: seq<int>)
    requires a != []
    ensures multiset(a[1..]) == multiset(a) - multiset{a[0]}
  {
    assert a == [a[0]] + a[1..];
  }

  lemma SameHead(a: seq<int>, b: seq<int>)
    requires Sorted(a) && Sorted(b) && multiset(a) == multiset(b)
    requires a != [] && b != []
    ensures a[0] == b[0]
  {
    assert a[0] in multiset(b) && b[0] in multiset(a);
  }

  lemma {:induction false} SortedPermutationUnique(a: seq<int>, b: seq<int>)
    requires Sorted(a) && Sorted(b) && multiset(a) == multiset(b)
    ensures a == b
  {
    assert |multiset(a)| == |multiset(b)|;
    if a != [] {
      SameHead(a, b);
      TailBag(a);
      TailBag(b);
      SortedPermutationUnique(a[1..], b[1..]);
      assert a == [a[0]] + a[1..] && b == [b[0]] + b[1..];
    }
  }

  // ---------------------------------------------------------------- one counting pass

  /** The elements whose key is `d`, in their original order. */
  function WithKey(s: seq<int>, key: int -> int, d: int): seq<int> {
    if s == [] then []
    else if key(s[0]) == d then [s[0]] + WithKey(s[1..], key, d)
    else WithKey(s[1..], key, d)
  }

  /** The elements with key 0, then those with key 1, and so on below `d`. */
  function Gather(s: seq<int>, key: int -> int, d: nat): seq<int> {
    if d == 0 then [] else Gather(s, key, d - 1) + WithKey(s, key, d - 1)
  }

  lemma JoinLeft(x: int, y: seq<int>, z: seq<int>)
    ensures [x] + (y + z) == [x] + y + z
  {
  }

  lemma {:induction false} WithKeyAppend(a: seq<int>, b: seq<int>, key: int -> int, d: int)
    ensures WithKey(a + b, key, d) == WithKey(a, key, d) + WithKey(b, key, d)
  {
    if a == [] {
      assert a + b == b;
    } else {
      WithKeyAppend(a[1..], b, key, d);
      assert (a + b)[1..] == a[1..] + b;
      if key(a[0]) == d {
        JoinLeft(a[0], WithKey(a[1..], key, d), WithKey(b, key, d));
      }
    }
  }

  lemma {:induction false} WithKeyMembers(s: seq<int>, key: int -> int, d: int)
    ensures forall v :: v in WithKey(s, key, d) <==> v in s && key(v) == d
  {
    if s != [] {
      WithKeyMembers(s[1..], key, d);
      assert s == [s[0]] + s[1..];
    }
  }

  lemma {:induction false} GatherMembers(s: seq<int>, key: int -> int, d: nat)
    requires forall v :: v in s ==> 0 <= key(v)
    ensures forall v :: v in Gather(s, key, d) <==> v in s && key(v) < d
  {
    if d > 0 {
      GatherMembers(s, key, d - 1);
      WithKeyMembers(s, key, d - 1);
    }
  }

  lemma {:induction false} GatherGrows(s: seq<int>, key: int -> int, d: nat, e: nat)
    requires d <= e
    ensures Gather(s, key, d) <= Gather(s, key, e)
  {
    if d < e {
      GatherGrows(s, key, d, e - 1);
    }
  }

  lemma {:induction false} WithKeyCounts(s: seq<int>, key: int -> int, d: int, v: int)
    ensures multiset(WithKey(s, key, d))[v] == if key(v) == d then multiset(s)[v] else 0
  {
    if s != [] {
      WithKeyCounts(s[1..], key, d, v);
      assert s == [s[0]] + s[1..];
    }
  }

  lemma CountInConcat(g: seq<int>, t: seq<int>, v: int)
    ensures multiset(g + t)[v] == multiset(g)[v] + multiset(t)[v]
  {
  }

  lemma {:induction false} GatherCounts(s: seq<int>, key: int -> int, d: nat, v: int)
    requires 0 <= key(v)
    ensures multiset(Gather(s, key, d))[v] == if key(v) < d then multiset(s)[v] else 0
  {
    if d > 0 {
      GatherCounts(s, key, d - 1, v);
      WithKeyCounts(s, key, d - 1, v);
      CountInConcat(Gather(s, key, d - 1), WithKey(s, key, d - 1), v);
    }
  }

  /** A pass loses and invents nothing. */
  lemma GatherPermutes(s: seq<int>, key: int -> int, d: nat)
    requires forall v :: 0 <= key(v) < d
    ensures multiset(Gather(s, key, d)) == multiset(s)
    ensures |Gather(s, key, d)| == |s|
  {
    forall v: int ensures multiset(Gather(s, key, d))[v] == multiset(s)[v] {
      GatherCounts(s, key, d, v);
    }
    assert multiset(Gather(s, key, d)) == multiset(s);
    assert |multiset(Gather(s, key, d))| == |multiset(s)|;
  }

  lemma {:induction false} WithKeyOfUniform(s: seq<int>, key: int -> int, e: int, d: int)
    requires forall v :: v in s ==> key(v) == e
    ensures WithKey(s, key, d) == if d == e then s else []
  {
    if s != [] {
      var x := s[0];
      assert x in s && key(x) == e;
      assert s == [x] + s[1..];
      WithKeyOfUniform(s[1..], key, e, d);
    }
  }

  /** Stability: a pass keeps the order of the elements that share a key. */
  lemma {:induction false} GatherIsStable(s: seq<int>, key: int -> int, n: nat, d: int)
    requires d >= 0
    ensures WithKey(Gather(s, key, n), key, d) == if d < n then WithKey(s, key, d) else []
  {
    if n > 0 {
      GatherIsStable(s, key, n - 1, d);
      WithKeyTwice(s, key, n - 1, d);
      WithKeyAppend(Gather(s, key, n - 1), WithKey(s, key, n - 1), key, d);
      assert WithKey(Gather(s, key, n), key, d) ==
             WithKey(Gather(s, key, n - 1), key, d) + WithKey(WithKey(s, key, n - 1), key, d);
    }
  }

  lemma WithKeyTwice(s: seq<int>, key: int -> int, e: int, d: int)
    ensures WithKey(WithKey(s, key, e), key, d) == if d == e then WithKey(s, key, d) else []
  {
    WithKeyMembers(s, key, e);
    WithKeyOfUniform(WithKey(s, key, e), key, e, d);
  }

  // ---------------------------------------------------------------- passes compose

  ghost predicate SortedBy(s: seq<int>, rank: int -> int) {
    forall i, j :: 0 <= i < j < |s| ==> rank(s[i]) <= rank(s[j])
  }

  lemma {:induction false} WithKeyKeepsOrder(s: seq<int>, key: int -> int, d: int, rank: int -> int)
    requires SortedBy(s, rank)
    ensures SortedBy(WithKey(s, key, d), rank)
  {
    if s != [] {
      var t := WithKey(s[1..], key, d);
      WithKeyKeepsOrder(s[1..], key, d, rank);
      WithKeyMembers(s[1..], key, d);
      forall j | 0 <= j < |t| ensures rank(s[0]) <= rank(t[j]) {
        assert t[j] in t;
        var k :| 1 <= k < |s| && s[k] == t[j];
      }
    }
  }

  /** `finer` orders by `key` first and by `coarse` among equal keys. */
  ghost predicate Refines(finer: int -> int, key: int -> int, coarse: int -> int) {
    forall u, v :: (key(u) < key(v) || (key(u) == key(v) && coarse(u) <= coarse(v))) ==> finer(u) <= finer(v)
  }

  /** Sorted by the low digits before the pass, sorted by one digit more after it. */
  lemma {:induction false} GatherSorts(s: seq<int>, key: int -> int, d: nat, coarse: int -> int, finer: int -> int)
    requires SortedBy(s, coarse) && Refines(finer, key, coarse)
    requires forall v :: v in s ==> 0 <= key(v)
    ensures SortedBy(Gather(s, key, d), finer)
  {
    if d > 0 {
      GatherSorts(s, key, d - 1, coarse, finer);
      GatherMembers(s, key, d - 1);
      WithKeyMembers(s, key, d - 1);
      WithKeyKeepsOrder(s, key, d - 1, coarse);
      JoinSorted(Gather(s, key, d - 1), WithKey(s, key, d - 1), key, d - 1, coarse, finer);
    }
  }

  lemma JoinSorted(g: seq<int>, t: seq<int>, key: int -> int, d: int, coarse: int -> int, finer: int -> int)
    requires SortedBy(g, finer) && SortedBy(t, coarse) && Refines(finer, key, coarse)
    requires forall v :: v in g ==> key(v) < d
    requires forall v :: v in t ==> key(v) == d
    ensures SortedBy(g + t, finer)
  {
    forall i, j | 0 <= i < j < |g + t| ensures finer((g + t)[i]) <= finer((g + t)[j]) {
      var u, v := (g + t)[i], (g + t)[j];
      if j < |g| {
        assert finer(g[i]) <= finer(g[j]);
      } else {
        assert v == t[j - |g|] && v in t && key(v) == d;
        if i < |g| {
          assert u in g && key(u) < d;
        } else {
          assert u == t[i - |g|] && u in t && key(u) == d;
          assert coarse(t[i - |g|]) <= coarse(t[j - |g|]);
        }
      }
    }
  }
}

/** radix_sort.c: the base-10 sort and the array helpers the slot allocator is built on. */
module RadixSort {
  import opened CTypes
  import opened CountingSort

  /** The decimal digit of weight `w`, the key of one pass. */
  function DigitOf(w: int): int -> int
    requires w > 0
  {
    v => v / w % 10
  }

  function ModOf(m: int): int -> int
    requires m > 0
  {
    v => v % m
  }

  lemma ModUnique(v: int, m: int, k: int, r: int)
    requires m > 0 && v == k * m + r && 0 <= r < m
    ensures v % m == r
  {
    var q := v / m;
    assert v == q * m + v % m;
    assert (q - k) * m == r - v % m;
    if q - k >= 1 {
      MulOrder(1, q - k, m);
    } else if q - k <= -1 {
      MulOrder(q - k, -1, m);
    }
  }

  lemma MulOrder(a: int, b: int, m: int)
    requires a <= b && m >= 0
    ensures a * m <= b * m
  {
  }

  /** v mod 10w is made of the digit of weight w and v mod w. */
  lemma ModSplit(v: int, w: int)
    requires w > 0
    ensures v % (10 * w) == v / w % 10 * w + v % w
  {
    var q, r := v / w, v % w;
    var t := q % 10 * w + r;
    var h := q / 10;
    assert q == 10 * h + q % 10;
    assert q * w == (10 * h) * w + q % 10 * w;
    MulOrder(0, q % 10, w);
    MulOrder(q % 10, 9, w);
    ModUnique(v, 10 * w, h, t);
  }

  lemma DigitsDecide(u: int, v: int, w: int)
    requires w > 0
    requires u / w % 10 < v / w % 10 || (u / w % 10 == v / w % 10 && u % w <= v % w)
    ensures u % (10 * w) <= v % (10 * w)
  {
    ModSplit(u, w);
    ModSplit(v, w);
    var du, dv := u / w % 10, v / w % 10;
    if du < dv {
      MulOrder(du + 1, dv, w);
      assert (du + 1) * w == du * w + w;
    }
  }

  lemma DigitRefines(w: int)
    requires w > 0
    ensures Refines(ModOf(10 * w), DigitOf(w), ModOf(w))
  {
    forall u: int, v: int
      | DigitOf(w)(u) < DigitOf(w)(v) || (DigitOf(w)(u) == DigitOf(w)(v) && ModOf(w)(u) <= ModOf(w)(v))
      ensures ModOf(10 * w)(u) <= ModOf(10 * w)(v)
    {
      DigitsDecide(u, v, w);
    }
  }

  // ---------------------------------------------------------------- the weight of the last digit

  lemma DivPositive(n: int, w: int)
    requires w > 0
    ensures n / w > 0 <==> n >= w
  {
  }

  /** The weight at which the loop over digits stops, in unbounded arithmetic. */
  function FinalWeight(largest: int, w: int): (r: int)
    requires w > 0
    ensures w <= r && largest < r
    decreases largest - w
  {
    DivPositive(largest, w);
    if largest / w > 0 then
      FinalWeight(largest, 10 * w)
    else
      w
  }

  /** The digit weight stays inside a C int exactly for arrays of values below ten to the ninth. */
  lemma WeightFitsIff(largest: int)
    requires largest <= INT_MAX
    ensures FinalWeight(largest, 1) <= INT_MAX <==> largest < 1_000_000_000
  {
    assert Pow10(3) == 1000;
    assert Pow10(6) == 1_000_000;
    assert Pow10(9) == 1_000_000_000;
    if largest < 1_000_000_000 {
      WeightBelow(largest, 1, 9);
    } else {
      assert largest / 1_000_000_000 > 0;
      WeightAbove(largest, 1, 9);
    }
  }

  function Pow10(n: nat): (r: int)
    ensures r > 0
  {
    if n == 0 then 1 else 10 * Pow10(n - 1)
  }

  lemma {:induction false} WeightBelow(largest: int, w: int, n: nat)
    requires w > 0 && largest < w * Pow10(n)
    ensures FinalWeight(largest, w) <= w * Pow10(n)
    decreases n
  {
    DivPositive(largest, w);
    if largest / w > 0 && n > 0 {
      assert 10 * w * Pow10(n - 1) == w * Pow10(n);
      WeightBelow(largest, 10 * w, n - 1);
    } else {
      MulOrder(1, Pow10(n), w);
    }
  }

  lemma {:induction false} WeightAbove(largest: int, w: int, n: nat)
    requires w > 0 && largest >= w * Pow10(n)
    ensures FinalWeight(largest, w) >= 10 * (w * Pow10(n))
    decreases n
  {
    MulOrder(1, Pow10(n), w);
    DivPositive(largest, w);
    if n > 0 {
      assert 10 * w * Pow10(n - 1) == w * Pow10(n);
      WeightAbove(largest, 10 * w, n - 1);
    }
  }

  // ---------------------------------------------------------------- findLargestNum

  method FindLargestNum(a: array<cint>) returns (largestNum: cint)
    requires a.Length <= INT_MAX
    ensures forall i :: 0 <= i < a.Length ==> a[i] <= largestNum
    ensures largestNum == -1 || largestNum in a[..]
    ensures -1 <= largestNum
  {
    largestNum := -1;
    for i := 0 to a.Length
      invariant -1 <= largestNum
      invariant forall j :: 0 <= j < i ==> a[j] <= largestNum
      invariant largestNum == -1 || largestNum in a[..]
    {
      if a[i] > largestNum {
        largestNum := a[i];
      }
    }
  }

  // ---------------------------------------------------------------- one digit pass

  lemma WithKeySnoc(s: seq<int>, i: nat, key: int -> int, d: int)
    requires i < |s|
    ensures WithKey(s[..i + 1], key, d) == WithKey(s[..i], key, d) + (if key(s[i]) == d then [s[i]] else [])
  {
    assert s[..i + 1] == s[..i] + [s[i]];
    WithKeyAppend(s[..i], [s[i]], key, d);
    assert [s[i]] + [] == [s[i]];
  }

  lemma {:induction false} WithKeyShort(s: seq<int>, key: int -> int, d: int)
    ensures |WithKey(s, key, d)| <= |s|
  {
    if s != [] {
      WithKeyShort(s[1..], key, d);
    }
  }

  lemma GatherShort(s: seq<int>, key: int -> int, d: nat)
    requires d <= 10 && forall v :: 0 <= key(v) < 10
    ensures |Gather(s, key, d)| <= |s|
  {
    GatherPermutes(s, key, 10);
    GatherGrows(s, key, d, 10);
  }

  method CountDigits(a: array<cint>, w: cint) returns (bucket: array<cint>)
    requires w > 0 && a.Length <= INT_MAX
    ensures fresh(bucket) && bucket.Length == 10
    ensures forall d :: 0 <= d < 10 ==> bucket[d] == |WithKey(a[..], DigitOf(w), d)|
  {
    bucket := new cint[10](_ => 0);
    ghost var s, key := a[..], DigitOf(w);
    for i := 0 to a.Length
      invariant a[..] == s
      invariant forall d :: 0 <= d < 10 ==> bucket[d] == |WithKey(s[..i], key, d)|
    {
      var d := a[i] / w % 10;
      assert key(s[i]) == d;
      forall e | 0 <= e < 10
        ensures |WithKey(s[..i + 1], key, e)| == |WithKey(s[..i], key, e)| + (if e == d then 1 else 0)
        ensures |WithKey(s[..i + 1], key, e)| <= i + 1
      {
        WithKeySnoc(s, i, key, e);
        WithKeyShort(s[..i + 1], key, e);
      }
      bucket[d] := bucket[d] + 1;
    }
    assert s[..a.Length] == s;
  }

  method PrefixSums(bucket: array<cint>, ghost s: seq<int>, ghost key: int -> int)
    requires bucket.Length == 10 && |s| <= INT_MAX
    requires forall v :: 0 <= key(v) < 10
    requires forall d :: 0 <= d < 10 ==> bucket[d] == |WithKey(s, key, d)|
    modifies bucket
    ensures forall d :: 0 <= d < 10 ==> bucket[d] == |Gather(s, key, d + 1)|
  {
    assert bucket[0] == |Gather(s, key, 1)| by {
      assert Gather(s, key, 0) == [];
      assert Gather(s, key, 1) == [] + WithKey(s, key, 0);
    }
    for i := 1 to 10
      invariant forall d :: 0 <= d < i ==> bucket[d] == |Gather(s, key, d + 1)|
      invariant forall d :: i <= d < 10 ==> bucket[d] == |WithKey(s, key, d)|
    {
      GatherShort(s, key, i + 1);
      bucket[i] := bucket[i] + bucket[i - 1];
    }
  }

  /** Elements s[i..] have been scattered: each bucket's region is filled from its end down. */
  ghost predicate Scattered(s: seq<int>, key: int -> int, i: nat, bucket: seq<int>, m: seq<int>)
    requires i <= |s|
  {
    && |bucket| == 10 && |m| == |s|
    && forall d :: 0 <= d < 10 ==> Region(s, key, i, bucket[d], m, d)
  }

  ghost predicate Region(s: seq<int>, key: int -> int, i: nat, b: int, m: seq<int>, d: nat)
    requires i <= |s|
  {
    && b == |Gather(s, key, d)| + |WithKey(s[..i], key, d)|
    && b <= |Gather(s, key, d + 1)| <= |m|
    && m[b..|Gather(s, key, d + 1)|] == WithKey(s[i..], key, d)
  }

  lemma ScatterStarts(s: seq<int>, key: int -> int, bucket: seq<int>, m: seq<int>)
    requires |bucket| == 10 && |m| == |s|
    requires forall v :: 0 <= key(v) < 10
    requires forall d :: 0 <= d < 10 ==> bucket[d] == |Gather(s, key, d + 1)|
    ensures Scattered(s, key, |s|, bucket, m)
  {
    forall d | 0 <= d < 10 ensures Region(s, key, |s|, bucket[d], m, d) {
      assert s[..|s|] == s;
      GatherShort(s, key, d + 1);
    }
  }

  lemma RegionStep(s: seq<int>, key: int -> int, i: nat, b: int, m: seq<int>, d: nat)
    requires i < |s| && key(s[i]) == d
    requires Region(s, key, i + 1, b, m, d)
    ensures 0 < b && Region(s, key, i, b - 1, m[b - 1 := s[i]], d)
  {
    WithKeySnoc(s, i, key, d);
    assert s[i..][1..] == s[i + 1..];
    var stop := |Gather(s, key, d + 1)|;
    assert m[b - 1 := s[i]][b - 1..stop] == [s[i]] + m[b..stop];
  }

  lemma RegionKept(s: seq<int>, key: int -> int, i: nat, b: int, m: seq<int>, d: nat, p: nat)
    requires i < |s| && key(s[i]) != d && p < |m|
    requires Region(s, key, i + 1, b, m, d)
    requires p < b || |Gather(s, key, d + 1)| <= p
    ensures Region(s, key, i, b, m[p := s[i]], d)
  {
    WithKeySnoc(s, i, key, d);
    assert s[i..][1..] == s[i + 1..];
    var stop := |Gather(s, key, d + 1)|;
    assert m[p := s[i]][b..stop] == m[b..stop];
  }

  lemma ScatterStep(s: seq<int>, key: int -> int, i: nat, bucket: seq<int>, m: seq<int>, e: nat)
    requires i < |s| && key(s[i]) == e < 10
    requires Scattered(s, key, i + 1, bucket, m)
    ensures 0 < bucket[e] <= |m|
    ensures Scattered(s, key, i, bucket[e := bucket[e] - 1], m[bucket[e] - 1 := s[i]])
  {
    assert Region(s, key, i + 1, bucket[e], m, e);
    RegionStep(s, key, i, bucket[e], m, e);
    var p := bucket[e] - 1;
    var after := bucket[e := p];
    assert Region(s, key, i, after[e], m[p := s[i]], e);
    forall d | 0 <= d < 10 && d != e ensures Region(s, key, i, after[d], m[p := s[i]], d) {
      assert Region(s, key, i + 1, bucket[d], m, d);
      if d < e {
        GatherGrows(s, key, d + 1, e);
      } else {
        GatherGrows(s, key, e + 1, d);
      }
      RegionKept(s, key, i, bucket[d], m, d, p);
    }
  }

  lemma {:induction false} ScatterDone(s: seq<int>, key: int -> int, bucket: seq<int>, m: seq<int>, d: nat)
    requires d <= 10 && Scattered(s, key, 0, bucket, m)
    ensures Gather(s, key, d) <= m
  {
    if d > 0 {
      ScatterDone(s, key, bucket, m, d - 1);
      assert Region(s, key, 0, bucket[d - 1], m, d - 1);
      assert s[0..] == s && s[..0] == [];
      var g, stop := Gather(s, key, d - 1), |Gather(s, key, d)|;
      assert m[..stop] == m[..|g|] + m[|g|..stop];
    }
  }

  method ScatterOne(a: array<cint>, w: cint, bucket: array<cint>, semiSorted: array<cint>, i: nat)
    requires w > 0 && i < a.Length
    requires a != bucket && a != semiSorted && bucket != semiSorted
    requires Scattered(a[..], DigitOf(w), i + 1, bucket[..], semiSorted[..])
    modifies bucket, semiSorted
    ensures Scattered(a[..], DigitOf(w), i, bucket[..], semiSorted[..])
  {
    ghost var b, m := bucket[..], semiSorted[..];
    var d := a[i] / w % 10;
    ScatterStep(a[..], DigitOf(w), i, b, m, d);
    bucket[d] := bucket[d] - 1;
    semiSorted[bucket[d]] := a[i];
    assert bucket[..] == b[d := b[d] - 1];
    assert semiSorted[..] == m[b[d] - 1 := a[i]];
  }

  method Scatter(a: array<cint>, w: cint, bucket: array<cint>, semiSorted: array<cint>)
    requires w > 0 && bucket.Length == 10 && semiSorted.Length == a.Length
    requires a != bucket && a != semiSorted && bucket != semiSorted
    requires forall d :: 0 <= d < 10 ==> bucket[d] == |Gather(a[..], DigitOf(w), d + 1)|
    modifies bucket, semiSorted
    ensures semiSorted[..] == Gather(a[..], DigitOf(w), 10)
  {
    ghost var s, key := a[..], DigitOf(w);
    ScatterStarts(s, key, bucket[..], semiSorted[..]);
    for i := a.Length downto 0
      invariant a[..] == s
      invariant Scattered(s, key, i, bucket[..], semiSorted[..])
    {
      ScatterOne(a, w, bucket, semiSorted, i);
    }
    ScatterDone(s, key, bucket[..], semiSorted[..], 10);
    GatherPermutes(s, key, 10);
  }

  /** The body of the digit loop: histogram, prefix sums, backward scatter, copy back. */
  method DigitPass(a: array<cint>, w: cint, semiSorted: array<cint>)
    requires w > 0 && a.Length <= INT_MAX && semiSorted.Length == a.Length && a != semiSorted
    modifies a, semiSorted
    ensures a[..] == Gather(old(a[..]), DigitOf(w), 10)
  {
    ghost var s, key := a[..], DigitOf(w);
    var bucket := CountDigits(a, w);
    PrefixSums(bucket, s, key);
    assert a[..] == s;
    Scatter(a, w, bucket, semiSorted);
    for i := 0 to a.Length
      invariant semiSorted[..] == Gather(s, key, 10)
      invariant a[..i] == semiSorted[..i]
    {
      a[i] := semiSorted[i];
    }
  }

  /** What the digit loop knows: the same elements, sorted by their digits below weight `w`. */
  ghost predicate SortedSoFar(s0: seq<int>, s: seq<int>, w: int, largest: int)
    requires w > 0
  {
    && multiset(s) == multiset(s0)
    && (forall v :: v in s ==> 0 <= v <= largest)
    && SortedBy(s, ModOf(w))
  }

  lemma PassSortsOneDigitMore(s0: seq<int>, s: seq<int>, w: int, largest: int)
    requires w > 0 && SortedSoFar(s0, s, w, largest)
    ensures SortedSoFar(s0, Gather(s, DigitOf(w), 10), 10 * w, largest)
  {
    DigitRefines(w);
    GatherSorts(s, DigitOf(w), 10, ModOf(w), ModOf(10 * w));
    GatherPermutes(s, DigitOf(w), 10);
    GatherMembers(s, DigitOf(w), 10);
  }

  lemma SmallMod(v: int, w: int)
    requires 0 <= v < w
    ensures ModOf(w)(v) == v
  {
    ModUnique(v, w, 0, v);
  }

  lemma AllDigitsSorted(s0: seq<int>, s: seq<int>, w: int, largest: int)
    requires w > largest && w > 0 && SortedSoFar(s0, s, w, largest)
    ensures Sorted(s)
  {
    forall i, j | 0 <= i < j < |s| ensures s[i] <= s[j] {
      var u, v := s[i], s[j];
      assert u in s && v in s;
      assert ModOf(w)(u) <= ModOf(w)(v);
      SmallMod(u, w);
      SmallMod(v, w);
    }
  }

  /** radix_sort */
  method RadixSort(a: array<cint>)
    requires a.Length <= INT_MAX
    requires forall i :: 0 <= i < a.Length ==> 0 <= a[i] < 1_000_000_000
    modifies a
    ensures a[..] == Sort(old(a[..]))
  {
    var semiSorted := new cint[a.Length](_ => 0);
    var significantDigit: cint := 1;
    var largestNum := FindLargestNum(a);
    ghost var s0 := a[..];
    WeightFitsIff(largestNum);
    while largestNum / significantDigit > 0
      invariant significantDigit > 0
      invariant FinalWeight(largestNum, significantDigit) == FinalWeight(largestNum, 1) <= INT_MAX
      invariant SortedSoFar(s0, a[..], significantDigit, largestNum)
      decreases largestNum - significantDigit
    {
      ghost var s := a[..];
      DivPositive(largestNum, significantDigit);
      assert FinalWeight(largestNum, 10 * significantDigit) <= INT_MAX;
      DigitPass(a, significantDigit, semiSorted);
      PassSortsOneDigitMore(s0, s, significantDigit, largestNum);
      significantDigit := significantDigit * 10;
    }
    DivPositive(largestNum, significantDigit);
    AllDigitsSorted(s0, a[..], significantDigit, largestNum);
    SortSorts(s0);
    SortedPermutationUnique(a[..], Sort(s0));
  }

  // ---------------------------------------------------------------- move_array

  function LeadingZeros(s: seq<int>): (n: nat)
    ensures n <= |s|
    ensures forall i :: 0 <= i < n ==> s[i] == 0
    ensures n < |s| ==> s[n] != 0
  {
    if s == [] || s[0] != 0 then 0 else
      var n := LeadingZeros(s[1..]);
      assert forall i :: 0 < i <= n ==> s[i] == s[1..][i - 1];
      n + 1
  }

  function Zeros(n: nat): (z: seq<int>)
    ensures |z| == n && forall i :: 0 <= i < n ==> z[i] == 0
  {
    seq(n, _ => 0)
  }

  /** The leading zeros move to the end. */
  function Compact(s: seq<int>): (r: seq<int>)
    ensures |r| == |s|
  {
    s[LeadingZeros(s)..] + Zeros(LeadingZeros(s))
  }

  function NonZeros(s: seq<int>): seq<int> {
    if s == [] then []
    else if s[0] != 0 then [s[0]] + NonZeros(s[1..])
    else NonZeros(s[1..])
  }

  lemma {:induction false} NonZerosAppend(a: seq<int>, b: seq<int>)
    ensures NonZeros(a + b) == NonZeros(a) + NonZeros(b)
  {
    if a == [] {
      assert a + b == b;
    } else {
      NonZerosAppend(a[1..], b);
      assert (a + b)[1..] == a[1..] + b;
      if a[0] != 0 {
        assert [a[0]] + (NonZeros(a[1..]) + NonZeros(b)) == [a[0]] + NonZeros(a[1..]) + NonZeros(b);
      }
    }
  }

  lemma {:induction false} NonZerosOfZeros(s: seq<int>)
    requires forall i :: 0 <= i < |s| ==> s[i] == 0
    ensures NonZeros(s) == []
  {
    if s != [] {
      NonZerosOfZeros(s[1..]);
    }
  }

  lemma {:induction false} NonZerosOfNonZeros(s: seq<int>)
    requires forall i :: 0 <= i < |s| ==> s[i] != 0
    ensures NonZeros(s) == s
  {
    if s != [] {
      NonZerosOfNonZeros(s[1..]);
      assert s == [s[0]] + s[1..];
    }
  }

  lemma {:induction false} NonZerosShort(s: seq<int>)
    ensures |NonZeros(s)| <= |s|
  {
    if s != [] {
      NonZerosShort(s[1..]);
    }
  }

  lemma {:induction false} NonZerosAreNonZero(s: seq<int>)
    ensures forall i :: 0 <= i < |NonZeros(s)| ==> NonZeros(s)[i] != 0
  {
    if s != [] {
      NonZerosAreNonZero(s[1..]);
    }
  }

  /** No zero stands between two non-zero elements. */
  ghost predicate NonZerosTogether(s: seq<int>) {
    forall i, j, k :: 0 <= i < j < k < |s| && s[i] != 0 && s[k] != 0 ==> s[j] != 0
  }

  function Gathered(s: seq<int>): seq<int> {
    NonZerosShort(s);
    NonZeros(s) + Zeros(|s| - |NonZeros(s)|)
  }

  function FirstZero(t: seq<int>): (n: nat)
    ensures n <= |t| && (n < |t| ==> t[n] == 0)
    ensures forall i :: 0 <= i < n ==> t[i] != 0
  {
    if t == [] || t[0] == 0 then 0 else
      var n := FirstZero(t[1..]);
      assert forall i :: 0 < i <= n ==> t[i] == t[1..][i - 1];
      n + 1
  }

  lemma NonZerosOfBlock(b: seq<int>, z: seq<int>)
    requires forall i :: 0 <= i < |b| ==> b[i] != 0
    requires forall i :: 0 <= i < |z| ==> z[i] == 0
    ensures Gathered(b + z) == b + z
  {
    NonZerosAppend(b, z);
    NonZerosOfNonZeros(b);
    NonZerosOfZeros(z);
    assert b + [] == b;
    assert z == Zeros(|z|);
  }

  lemma GatheredAfterZeros(s: seq<int>, n: nat)
    requires n <= |s| && forall i :: 0 <= i < n ==> s[i] == 0
    ensures Gathered(s) == Gathered(s[n..]) + Zeros(n)
  {
    assert s == s[..n] + s[n..];
    NonZerosAppend(s[..n], s[n..]);
    NonZerosOfZeros(s[..n]);
    assert NonZeros(s) == [] + NonZeros(s[n..]) == NonZeros(s[n..]);
    var m := |NonZeros(s[n..])|;
    NonZerosShort(s[n..]);
    assert Zeros(|s| - n - m) + Zeros(n) == Zeros(|s| - m);
  }

  lemma TogetherGathers(s: seq<int>)
    requires NonZerosTogether(s)
    ensures Compact(s) == Gathered(s)
  {
    var n := LeadingZeros(s);
    var t := s[n..];
    var f := FirstZero(t);
    GatheredAfterZeros(s, n);
    forall i | f <= i < |t| ensures t[i] == 0 {
      assert s[n] == t[0] && s[n + i] == t[i] && s[n + f] == t[f];
    }
    NonZerosOfBlock(t[..f], t[f..]);
    assert t == t[..f] + t[f..];
  }

  lemma GatheredWereTogether(s: seq<int>)
    requires Compact(s) == Gathered(s)
    ensures NonZerosTogether(s)
  {
    var n := LeadingZeros(s);
    var t := s[n..];
    GatheredAfterZeros(s, n);
    assert t == Compact(s)[..|t|] && |Gathered(t)| == |t|;
    assert Gathered(s)[..|t|] == Gathered(t);
    GatheredTogether(t);
    forall i, j, k | 0 <= i < j < k < |s| && s[i] != 0 && s[k] != 0 ensures s[j] != 0 {
      assert t[i - n] != 0 && t[k - n] != 0;
      assert t[j - n] != 0;
    }
  }

  /** move_array gathers every non-zero element at the head, as its header says, exactly
      when the non-zero elements already stand together. */
  lemma CompactGathersIff(s: seq<int>)
    ensures Compact(s) == Gathered(s) <==> NonZerosTogether(s)
  {
    if NonZerosTogether(s) {
      TogetherGathers(s);
    } else if Compact(s) == Gathered(s) {
      GatheredWereTogether(s);
    }
  }

  lemma GatheredTogether(t: seq<int>)
    requires t == Gathered(t)
    ensures NonZerosTogether(t)
  {
    var m := NonZeros(t);
    NonZerosShort(t);
    NonZerosAreNonZero(t);
    assert forall i :: 0 <= i < |t| ==> (t[i] != 0 <==> i < |m|);
  }

  /** move_array */
  method MoveArray(a: array<cint>)
    modifies a
    ensures a[..] == Compact(old(a[..]))
  {
    ghost var s := a[..];
    var size := a.Length;
    var i := 0;
    while i < size
      invariant i <= size && forall k :: 0 <= k < i ==> s[k] == 0
      invariant a[..] == s
    {
      if a[i] != 0 {
        break;
      }
      i := i + 1;
    }
    ghost var n := i;
    assert n == LeadingZeros(s);
    if i == 0 {
      return;
    }
    var j := 0;
    while i < size
      invariant i == n + j && i <= size
      invariant forall k :: 0 <= k < j ==> a[k] == s[n + k]
      invariant forall k :: i <= k < size ==> a[k] == s[k]
    {
      a[j] := a[i];
      j := j + 1;
      i := i + 1;
    }
    while j < size
      invariant size - n <= j <= size
      invariant forall k :: 0 <= k < size - n ==> a[k] == s[n + k]
      invariant forall k :: size - n <= k < j ==> a[k] == 0
    {
      a[j] := 0;
      j := j + 1;
    }
  }

  // ---------------------------------------------------------------- binarySearch

  /** binarySearch, as compiled by default: a linear scan of the first `r` elements. */
  method BinarySearch(arr: array<cint>, r: cint, x: cint) returns (found: cint)
    requires r <= arr.Length
    ensures found == -1 <==> forall i :: 0 <= i < r ==> arr[i] != x
    ensures found != -1 ==> 0 <= found < r && arr[found] == x && forall i :: 0 <= i < found ==> arr[i] != x
  {
    var i := 0;
    while i < r
      invariant 0 <= i && (i == 0 || i <= r)
      invariant forall k :: 0 <= k < i ==> arr[k] != x
    {
      if arr[i] == x {
        return i;
      }
      i := i + 1;
    }
    return -1;
  }
}
