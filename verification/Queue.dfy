/** q.c: the bounded ring of lines. */
module Queue {
  import opened CTypes

  datatype Elem = Elem(line: int, sz: int)

  /** The fields of a queue; None is a pointer never written. */
  datatype Ring = Ring(e: seq<Option<Elem>>, head: int, tail: int, currSize: int)

  /** add_counter */
  function AddCounter(maxSize: int, a: int): int {
    if a + 1 >= maxSize then 0 else a + 1
  }

  function Wrap(i: int, n: int): int {
    if i >= n then i - n else i
  }

  /** The place of the i-th oldest element. */
  function Place(r: Ring, i: int): int {
    Wrap(r.tail + i, |r.e|)
  }

  predicate Filled(r: Ring, i: int) {
    0 <= Place(r, i) < |r.e| && r.e[Place(r, i)].Some?
  }

  /** head stands currSize places after tail, and those places are filled. */
  ghost predicate Proper(r: Ring) {
    && 0 <= r.tail < |r.e| && 0 <= r.currSize <= |r.e|
    && r.head == (r.tail + r.currSize) % |r.e|
    && forall i :: 0 <= i < r.currSize ==> Filled(r, i)
  }

  /** The queue a ring stands for, oldest first. */
  function Contents(r: Ring): (s: seq<Elem>)
    requires Proper(r)
    ensures |s| == r.currSize
  {
    seq(r.currSize, i requires 0 <= i < r.currSize && Filled(r, i) => r.e[Place(r, i)].value)
  }

  function AddTo(r: Ring, x: Elem): (bool, Ring)
    requires 0 <= r.head < |r.e|
  {
    if r.currSize == |r.e| then (false, r)
    else (true, Ring(r.e[r.head := Some(x)], AddCounter(|r.e|, r.head), r.tail, r.currSize + 1))
  }

  function RemoveFrom(r: Ring): (Option<Elem>, Ring)
    requires 0 <= r.tail < |r.e|
  {
    if r.currSize == 0 then (None, r)
    else (r.e[r.tail], r.(tail := AddCounter(|r.e|, r.tail), currSize := r.currSize - 1))
  }

  lemma WrapIsMod(i: int, n: int)
    requires 0 <= i < 2 * n
    ensures i % n == Wrap(i, n)
  {
    if i >= n {
      assert i == n + (i - n);
      assert (i - n) % n == i - n;
    }
  }

  /** q_add appends, or changes nothing when the queue is full. */
  lemma AddRefines(r: Ring, x: Elem)
    requires Proper(r) && 0 <= r.head
    ensures 0 <= r.head < |r.e|
    ensures var (ok, q) := AddTo(r, x);
            && Proper(q) && |q.e| == |r.e| && 0 <= q.head
            && (ok <==> |Contents(r)| < |r.e|)
            && Contents(q) == if ok then Contents(r) + [x] else Contents(r)
  {
    var n := |r.e|;
    WrapIsMod(r.tail + r.currSize, n);
    if r.currSize < n {
      var q := AddTo(r, x).1;
      WrapIsMod(r.tail + r.currSize + 1, n);
      forall i | 0 <= i < q.currSize
        ensures Filled(q, i) && q.e[Place(q, i)] == if i < r.currSize then r.e[Place(r, i)] else Some(x)
      {
        assert i < r.currSize ==> Filled(r, i);
      }
      assert Proper(q);
      assert Contents(q) == Contents(r) + [x];
    }
  }

  /** q_remove takes the oldest element, or nothing when the queue is empty. */
  lemma RemoveRefines(r: Ring)
    requires Proper(r) && 0 <= r.head
    ensures var (x, q) := RemoveFrom(r);
            && Proper(q) && |q.e| == |r.e| && 0 <= q.head
            && (if Contents(r) == [] then x == None && q == r
                else x == Some(Contents(r)[0]) && Contents(q) == Contents(r)[1..])
  {
    var n := |r.e|;
    if r.currSize > 0 {
      var q := RemoveFrom(r).1;
      WrapIsMod(r.tail + r.currSize, n);
      WrapIsMod(q.tail + q.currSize, n);
      forall i | 0 <= i < q.currSize
        ensures Filled(q, i) && q.e[Place(q, i)] == r.e[Place(r, i + 1)]
      {
        assert Filled(r, i + 1);
      }
      assert Filled(r, 0);
      assert Proper(q);
      assert Contents(q) == Contents(r)[1..];
    }
  }

  // ---------------------------------------------------------------- any interleaving

  datatype Op = AddOp(x: Elem) | RemoveOp

  /** The ring after some calls, what the accepted adds put in and what the removes gave out. */
  datatype History = History(ring: Ring, added: seq<Elem>, removed: seq<Elem>)

  function Do(h: History, op: Op): History
    requires 0 <= h.ring.head < |h.ring.e| && 0 <= h.ring.tail < |h.ring.e|
  {
    match op
    case AddOp(x) =>
      var (ok, q) := AddTo(h.ring, x);
      History(q, if ok then h.added + [x] else h.added, h.removed)
    case RemoveOp =>
      var (x, q) := RemoveFrom(h.ring);
      History(q, h.added, if x.Some? then h.removed + [x.value] else h.removed)
  }

  function Empty(n: nat): Ring {
    Ring(seq(n, _ => None), 0, 0, 0)
  }

  ghost predicate Balanced(h: History) {
    && Proper(h.ring) && 0 <= h.ring.head < |h.ring.e|
    && h.added == h.removed + Contents(h.ring)
  }

  lemma DoKeepsBalance(h: History, op: Op)
    requires Balanced(h)
    ensures Balanced(Do(h, op)) && |Do(h, op).ring.e| == |h.ring.e|
  {
    match op
    case AddOp(x) =>
      AddRefines(h.ring, x);
      assert h.removed + (Contents(h.ring) + [x]) == h.removed + Contents(h.ring) + [x];
    case RemoveOp =>
      RemoveRefines(h.ring);
      var c := Contents(h.ring);
      if c != [] {
        assert c == [c[0]] + c[1..];
        assert h.removed + [c[0]] + c[1..] == h.removed + c;
      }
      WrapIsMod(h.ring.tail + h.ring.currSize, |h.ring.e|);
  }

  function Run(n: nat, ops: seq<Op>): (h: History)
    requires n > 0
    ensures Balanced(h) && |h.ring.e| == n
    decreases |ops|
  {
    if ops == [] then
      assert Contents(Empty(n)) == [];
      History(Empty(n), [], [])
    else
      var h := Run(n, ops[..|ops| - 1]);
      DoKeepsBalance(h, ops[|ops| - 1]);
      Do(h, ops[|ops| - 1])
  }

  // ---------------------------------------------------------------- the queue in C

  class RingQueue {
    const maxSize: cint
    const e: array<Option<Elem>>
    var currSize: cint
    var head: cint
    var tail: cint

    ghost predicate Valid()
      reads this, e
    {
      e.Length == maxSize > 0 && 0 <= head < maxSize && Proper(Model())
    }

    ghost function Model(): Ring
      reads this, e
    {
      Ring(e[..], head, tail, currSize)
    }

    /** q_init, whose assertion demands a positive size */
    constructor (maxSize: cint)
      requires 0 < maxSize
      ensures Valid() && fresh(e) && this.maxSize == maxSize && Contents(Model()) == []
    {
      this.maxSize := maxSize;
      e := new Option<Elem>[maxSize](_ => None);
      currSize, head, tail := 0, 0, 0;
    }

    /** q_full */
    method Full() returns (r: bool)
      requires Valid()
      ensures r <==> |Contents(Model())| == maxSize
    {
      if currSize == maxSize {
        return true;
      }
      return false;
    }

    /** q_empty */
    method IsEmpty() returns (r: bool)
      requires Valid()
      ensures r <==> Contents(Model()) == []
    {
      if currSize == 0 {
        return true;
      }
      return false;
    }

    /** q_add */
    method Add(line: cint, sz: cint) returns (ok: bool)
      requires Valid()
      modifies this, e
      ensures Valid()
      ensures ok <==> |old(Contents(Model()))| < maxSize
      ensures Contents(Model()) == old(Contents(Model())) + if ok then [Elem(line, sz)] else []
    {
      ghost var r := Model();
      AddRefines(r, Elem(line, sz));
      if currSize == maxSize {
        assert Contents(r) + [] == Contents(r);
        return false;
      }
      e[head] := Some(Elem(line, sz));
      head := AddCounter(maxSize, head);
      currSize := currSize + 1;
      assert Model() == AddTo(r, Elem(line, sz)).1;
      return true;
    }

    /** q_remove */
    method Remove() returns (x: Option<Elem>)
      requires Valid()
      modifies this
      ensures Valid()
      ensures var was := old(Contents(Model()));
              if was == [] then x == None && Contents(Model()) == []
              else x == Some(was[0]) && Contents(Model()) == was[1..]
    {
      ghost var r := Model();
      RemoveRefines(r);
      if currSize == 0 {
        return None;
      }
      x := e[tail];
      tail := AddCounter(maxSize, tail);
      currSize := currSize - 1;
      assert Model() == RemoveFrom(r).1;
    }
  }
}
