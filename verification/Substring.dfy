/** substring.c: the resumable pattern scanner. */
module Substring {
  import opened CTypes

  const MAX_OCCURANCE: nat := 1024
  const LLONG_MAX: int := 0x7FFF_FFFF_FFFF_FFFF

  /** What the scanner remembers between calls: pattern bytes matched, positions found,
      bytes consumed, and whether the limit was reached. */
  datatype Context = Context(state: nat, found: seq<nat>, total: nat, done: bool)

  /** The scanner before the first byte. */
  const START := Context(0, [], 0, false)

  function Step(pat: seq<byte>, c: Context, b: byte): Context
    requires c.state < |pat|
  {
    if c.done then c
    else if b == pat[c.state] then
      if c.state + 1 == |pat| then
        var found := c.found + [if c.total >= c.state then c.total - c.state else 0];
        Context(0, found, c.total + 1, |found| == MAX_OCCURANCE)
      else
        c.(state := c.state + 1, total := c.total + 1)
    else
      c.(state := 0, total := c.total + 1)
  }

  function Scan(pat: seq<byte>, c: Context, data: seq<byte>): (r: Context)
    requires c.state < |pat|
    ensures r.state < |pat|
    decreases |data|
  {
    if data == [] then c else Scan(pat, Step(pat, c, data[0]), data[1..])
  }

  /** Scanning from the start of a stream. */
  function ScanAll(pat: seq<byte>, s: seq<byte>): (r: Context)
    requires pat != []
    ensures r.state < |pat|
  {
    Scan(pat, START, s)
  }

  // ---------------------------------------------------------------- chunks do not matter

  lemma {:induction false} ScanConcat(pat: seq<byte>, c: Context, a: seq<byte>, b: seq<byte>)
    requires c.state < |pat|
    ensures Scan(pat, c, a + b) == Scan(pat, Scan(pat, c, a), b)
    decreases |a|
  {
    if a == [] {
      assert a + b == b;
    } else {
      ScanConcat(pat, Step(pat, c, a[0]), a[1..], b);
      assert (a + b)[1..] == a[1..] + b;
    }
  }

  function ScanChunks(pat: seq<byte>, c: Context, chunks: seq<seq<byte>>): (r: Context)
    requires c.state < |pat|
    ensures r.state < |pat|
    decreases |chunks|
  {
    if chunks == [] then c else ScanChunks(pat, Scan(pat, c, chunks[0]), chunks[1..])
  }

  /** However a stream is cut into chunks, and whether or not the limit is reached inside one,
      scanning it chunk by chunk ends as scanning it whole. */
  lemma {:induction false} ChunkingIrrelevant(pat: seq<byte>, c: Context, chunks: seq<seq<byte>>)
    requires c.state < |pat|
    ensures ScanChunks(pat, c, chunks) == Scan(pat, c, Flatten(chunks))
    decreases |chunks|
  {
    if chunks != [] {
      ChunkingIrrelevant(pat, Scan(pat, c, chunks[0]), chunks[1..]);
      ScanConcat(pat, c, chunks[0], Flatten(chunks[1..]));
    }
  }

  // ---------------------------------------------------------------- what is found

  predicate OccursAt(pat: seq<byte>, s: seq<byte>, p: nat) {
    p + |pat| <= |s| && s[p..p + |pat|] == pat
  }

  ghost predicate Apart(found: seq<nat>, n: nat) {
    forall i, j :: 0 <= i < j < |found| ==> found[i] + n <= found[j]
  }

  /** What is true after any stream s: the bytes just consumed match the pattern up to the
      state, and each position found is an occurrence, a pattern length from the next. */
  ghost predicate Sound(pat: seq<byte>, s: seq<byte>, c: Context)
    requires c.state < |pat|
  {
    && c.state <= c.total <= |s|
    && (!c.done ==> c.total == |s| && s[|s| - c.state..] == pat[..c.state])
    && (forall i :: 0 <= i < |c.found| ==> OccursAt(pat, s, c.found[i]))
    && (forall i :: 0 <= i < |c.found| ==> c.found[i] + |pat| <= c.total - c.state)
    && Apart(c.found, |pat|)
    && |c.found| <= MAX_OCCURANCE
    && (c.done <==> |c.found| == MAX_OCCURANCE)
  }

  lemma ScanSnoc(pat: seq<byte>, s: seq<byte>, b: byte)
    requires pat != []
    ensures ScanAll(pat, s + [b]) == Step(pat, ScanAll(pat, s), b)
  {
    ScanConcat(pat, START, s, [b]);
    assert [b][1..] == [];
  }

  lemma OccursLater(pat: seq<byte>, s: seq<byte>, b: byte, p: nat)
    requires OccursAt(pat, s, p)
    ensures OccursAt(pat, s + [b], p)
  {
    assert (s + [b])[p..p + |pat|] == s[p..p + |pat|];
  }

  lemma StepKeepsSound(pat: seq<byte>, s: seq<byte>, b: byte, c: Context)
    requires c.state < |pat| && Sound(pat, s, c)
    ensures Step(pat, c, b).state < |pat| && Sound(pat, s + [b], Step(pat, c, b))
  {
    var t, d := s + [b], Step(pat, c, b);
    forall i | 0 <= i < |c.found| ensures OccursAt(pat, t, c.found[i]) {
      OccursLater(pat, s, b, c.found[i]);
    }
    if !c.done && b == pat[c.state] {
      assert t[|t| - (c.state + 1)..] == s[|s| - c.state..] + [b];
      assert pat[..c.state + 1] == pat[..c.state] + [b];
      if c.state + 1 == |pat| {
        assert t[|t| - |pat|..] == pat[..|pat|] == pat;
        assert t[c.total - c.state..c.total - c.state + |pat|] == t[|t| - |pat|..];
      }
    }
  }

  lemma {:induction false} ScanIsSound(pat: seq<byte>, s: seq<byte>)
    requires pat != []
    ensures Sound(pat, s, ScanAll(pat, s))
    decreases |s|
  {
    if s != [] {
      var n := |s| - 1;
      ScanIsSound(pat, s[..n]);
      StepKeepsSound(pat, s[..n], s[n], ScanAll(pat, s[..n]));
      ScanSnoc(pat, s[..n], s[n]);
      assert s == s[..n] + [s[n]];
    }
  }

  // ---------------------------------------------------------------- exactly which occurrences are found

  /** Started in state 0 where the pattern stands, the scanner follows it byte by byte. */
  lemma {:induction false} FollowsPattern(pat: seq<byte>, s: seq<byte>, p: nat, k: nat)
    requires k < |pat| && OccursAt(pat, s, p)
    requires ScanAll(pat, s[..p]).state == 0 && !ScanAll(pat, s[..p]).done
    ensures ScanAll(pat, s[..p + k]) == ScanAll(pat, s[..p]).(state := k, total := p + k)
    decreases k
  {
    if k == 0 {
      ScanIsSound(pat, s[..p]);
    } else {
      FollowsPattern(pat, s, p, k - 1);
      ScanSnoc(pat, s[..p + k - 1], s[p + k - 1]);
      assert s[..p + k] == s[..p + k - 1] + [s[p + k - 1]];
      assert s[p + k - 1] == s[p..p + |pat|][k - 1] == pat[k - 1];
    }
  }

  lemma FoundFromStateZero(pat: seq<byte>, s: seq<byte>, p: nat)
    requires pat != [] && OccursAt(pat, s, p)
    requires ScanAll(pat, s[..p]).state == 0 && !ScanAll(pat, s[..p]).done
    ensures ScanAll(pat, s[..p + |pat|]).found == ScanAll(pat, s[..p]).found + [p]
  {
    var e := p + |pat| - 1;
    FollowsPattern(pat, s, p, |pat| - 1);
    ScanSnoc(pat, s[..e], s[e]);
    assert s[..e + 1] == s[..e] + [s[e]];
    assert s[e] == s[p..p + |pat|][|pat| - 1];
  }

  lemma {:induction false} FoundGrows(pat: seq<byte>, c: Context, data: seq<byte>)
    requires c.state < |pat|
    ensures c.found <= Scan(pat, c, data).found
    ensures c.done ==> Scan(pat, c, data) == c
    decreases |data|
  {
    if data != [] {
      FoundGrows(pat, Step(pat, c, data[0]), data[1..]);
    }
  }

  lemma FoundInPrefix(pat: seq<byte>, s: seq<byte>, n: nat)
    requires pat != [] && n <= |s|
    ensures ScanAll(pat, s[..n]).found <= ScanAll(pat, s).found
  {
    assert s == s[..n] + s[n..];
    ScanConcat(pat, START, s[..n], s[n..]);
    FoundGrows(pat, ScanAll(pat, s[..n]), s[n..]);
  }

  /** A state of k was reached by k matching steps from state 0, none of which found anything. */
  lemma {:induction false} StateWasZero(pat: seq<byte>, s: seq<byte>)
    requires pat != [] && !ScanAll(pat, s).done
    ensures var k := ScanAll(pat, s).state;
            k <= |s| && ScanAll(pat, s[..|s| - k]).state == 0 && !ScanAll(pat, s[..|s| - k]).done
    decreases |s|
  {
    ScanIsSound(pat, s);
    var k := ScanAll(pat, s).state;
    if k > 0 {
      var n := |s| - 1;
      ScanSnoc(pat, s[..n], s[n]);
      assert s == s[..n] + [s[n]];
      StateWasZero(pat, s[..n]);
      assert s[..n][..n - (k - 1)] == s[..|s| - k];
    } else {
      assert s[..|s|] == s;
    }
  }

  lemma {:induction false} FoundWasStateZero(pat: seq<byte>, s: seq<byte>, p: nat)
    requires pat != [] && p in ScanAll(pat, s).found
    ensures OccursAt(pat, s, p)
    ensures ScanAll(pat, s[..p]).state == 0 && !ScanAll(pat, s[..p]).done
    decreases |s|
  {
    ScanIsSound(pat, s);
    if s != [] {
      var n := |s| - 1;
      var c := ScanAll(pat, s[..n]);
      ScanSnoc(pat, s[..n], s[n]);
      assert s == s[..n] + [s[n]];
      if p in c.found {
        FoundWasStateZero(pat, s[..n], p);
        assert s[..n][..p] == s[..p];
      } else {
        ScanIsSound(pat, s[..n]);
        StateWasZero(pat, s[..n]);
        assert s[..n][..n - c.state] == s[..p];
      }
    }
  }

  /** The reporting criterion: an occurrence is recorded if and only if the scanner stands in
      state 0, below the limit, when the occurrence begins. */
  lemma RecordedIff(pat: seq<byte>, s: seq<byte>, p: nat)
    requires OccursAt(pat, s, p) && pat != []
    ensures p in ScanAll(pat, s).found <==>
            ScanAll(pat, s[..p]).state == 0 && !ScanAll(pat, s[..p]).done
  {
    if ScanAll(pat, s[..p]).state == 0 && !ScanAll(pat, s[..p]).done {
      FoundFromStateZero(pat, s, p);
      FoundInPrefix(pat, s, p + |pat|);
      var f := ScanAll(pat, s[..p]).found;
      assert (f + [p])[|f|] == p;
    }
    if p in ScanAll(pat, s).found {
      FoundWasStateZero(pat, s, p);
    }
  }

  /** Below the limit, an occurrence is recorded for certain at the start of the stream, after
      a byte that is not in the pattern, or where a recorded occurrence ends. */
  lemma CertainlyRecorded(pat: seq<byte>, s: seq<byte>, p: nat)
    requires OccursAt(pat, s, p) && pat != [] && !ScanAll(pat, s[..p]).done
    requires p == 0 || s[p - 1] !in pat || (p >= |pat| && p - |pat| in ScanAll(pat, s).found)
    ensures p in ScanAll(pat, s).found
  {
    if p > 0 {
      ScanSnoc(pat, s[..p - 1], s[p - 1]);
      assert s[..p] == s[..p - 1] + [s[p - 1]];
      if s[p - 1] in pat {
        var q := p - |pat|;
        FoundWasStateZero(pat, s, q);
        FollowsPattern(pat, s, q, |pat| - 1);
        assert s[p - 1] == s[q..q + |pat|][|pat| - 1];
      }
    }
    RecordedIff(pat, s, p);
  }

  /** "Finds every occurrence" is false: aab stands at 1 in aaab and is not reported, because a
      mismatching byte is not looked at again. */
  lemma MissedOccurrence()
    ensures var pat: seq<byte>, s: seq<byte> := [97, 97, 98], [97, 97, 97, 98];
            OccursAt(pat, s, 1) && ScanAll(pat, s).found == []
  {
    var pat: seq<byte>, s: seq<byte> := [97, 97, 98], [97, 97, 97, 98];
    ScanSnoc(pat, [], 97);
    ScanSnoc(pat, [97], 97);
    ScanSnoc(pat, [97, 97], 97);
    ScanSnoc(pat, [97, 97, 97], 98);
    assert [] + [97 as byte] == [97] && [97 as byte] + [97] == [97, 97];
    assert [97 as byte, 97] + [97] == [97, 97, 97] && [97 as byte, 97, 97] + [98] == s;
  }

  lemma {:induction false} OneByteState(pat: seq<byte>, s: seq<byte>)
    requires |pat| == 1
    ensures ScanAll(pat, s).state == 0
  {
  }

  /** For any pattern of two bytes or more, a stray first byte in front hides the occurrence. */
  lemma HiddenByFirstByte(pat: seq<byte>)
    requires |pat| >= 2
    ensures OccursAt(pat, [pat[0]] + pat, 1) && !ScanAll(pat, [pat[0]]).done
    ensures 1 !in ScanAll(pat, [pat[0]] + pat).found
  {
    var s := [pat[0]] + pat;
    assert s[1..1 + |pat|] == pat;
    ScanSnoc(pat, [], pat[0]);
    assert [] + [pat[0]] == [pat[0]] == s[..1];
    RecordedIff(pat, s, 1);
  }

  /** Every occurrence below the limit is reported in every stream exactly for patterns of one byte. */
  lemma FindsEverythingIff(pat: seq<byte>)
    requires pat != []
    ensures (forall s, p: nat :: OccursAt(pat, s, p) && !ScanAll(pat, s[..p]).done ==> p in ScanAll(pat, s).found)
            <==> |pat| == 1
  {
    if |pat| == 1 {
      forall s, p: nat | OccursAt(pat, s, p) && !ScanAll(pat, s[..p]).done
        ensures p in ScanAll(pat, s).found
      {
        OneByteState(pat, s[..p]);
        RecordedIff(pat, s, p);
      }
    } else {
      HiddenByFirstByte(pat);
      assert ([pat[0]] + pat)[..1] == [pat[0]];
    }
  }

  // ---------------------------------------------------------------- the limit

  /** Scanning stops with the byte that completes occurrence number 1024, and not before. */
  lemma {:induction false} LimitIs(pat: seq<byte>, s: seq<byte>)
    requires pat != []
    ensures var c := ScanAll(pat, s);
            && |c.found| <= 1024 && (c.done <==> |c.found| == 1024)
            && (!c.done ==> c.total == |s|)
            && (c.done ==> c.state == 0 && c.total == c.found[1023] + |pat|)
    decreases |s|
  {
    ScanIsSound(pat, s);
    if s != [] {
      var n := |s| - 1;
      LimitIs(pat, s[..n]);
      ScanIsSound(pat, s[..n]);
      ScanSnoc(pat, s[..n], s[n]);
      assert s == s[..n] + [s[n]];
    }
  }

  // ---------------------------------------------------------------- the scanner in C

  /** Storing a long long in an int. */
  function AsInt(n: int): (r: cint)
    ensures 0 <= n <= INT_MAX ==> r == n
    ensures (n - r) % 0x1_0000_0000 == 0
  {
    (n + 0x8000_0000) % 0x1_0000_0000 - 0x8000_0000
  }

  class Scanner {
    var count: cint
    const locations: array<cint>
    const pattern: array<byte>
    var state: cint
    var total: int
    var done: bool
    ghost var found: seq<nat>

    ghost predicate Valid()
      reads this, locations, pattern
    {
      && locations.Length == MAX_OCCURANCE && locations as object != pattern
      && 0 < pattern.Length <= INT_MAX
      && 0 <= state < pattern.Length
      && 0 <= total <= LLONG_MAX
      && count == |found| <= MAX_OCCURANCE
      && (done <==> count == MAX_OCCURANCE)
      && (!done ==> state <= total)
      && forall i :: 0 <= i < count ==> locations[i] == AsInt(found[i])
    }

    ghost function Model(): Context
      reads this
      requires 0 <= state && 0 <= total
    {
      Context(state, found, total, done)
    }

    /** sstring_init */
    constructor (substring: seq<byte>)
      requires 0 < |substring| <= INT_MAX
      ensures Valid() && fresh(locations) && fresh(pattern)
      ensures pattern[..] == substring && Model() == START
    {
      pattern := new byte[|substring|](i requires 0 <= i < |substring| => substring[i]);
      locations := new cint[MAX_OCCURANCE](_ => 0);
      count := 0;
      state := 0;
      total := 0;
      done := false;
      found := [];
    }

    /** The body of the loop in sstring_compute. */
    method Consume(b: byte)
      requires Valid() && !done && total < LLONG_MAX
      modifies this, locations
      ensures Valid() && total == old(total) + 1
      ensures Model() == Step(pattern[..], old(Model()), b)
      ensures pattern[..] == old(pattern[..])
    {
      if b == pattern[state] {
        state := state + 1;
        if state == pattern.Length {
          state := 0;
          locations[count] := AsInt(total - (pattern.Length - 1));
          found := found + [total - (pattern.Length - 1)];
          count := count + 1;
          if count == MAX_OCCURANCE {
            done := true;
          }
        }
      } else {
        state := 0;
      }
      total := total + 1;
    }

    /** sstring_compute */
    method Compute(data: seq<byte>)
      requires Valid() && total + |data| <= LLONG_MAX
      modifies this, locations
      ensures Valid()
      ensures Model() == Scan(pattern[..], old(Model()), data)
    {
      ghost var pat, c := pattern[..], Model();
      var i := 0;
      while i < |data| && !done
        invariant 0 <= i <= |data| && pattern[..] == pat
        invariant Valid() && total + |data| - i <= LLONG_MAX
        invariant Scan(pat, Model(), data[i..]) == Scan(pat, c, data)
      {
        assert data[i..][1..] == data[i + 1..];
        Consume(data[i]);
        i := i + 1;
      }
      FoundGrows(pat, Model(), data[i..]);
    }
  }
}
